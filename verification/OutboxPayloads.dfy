/** Where the payload of a job comes from, and what an enqueuer that nobody interrupts achieves. */
module OutboxPayloads {
  import opened Basics
  import opened Outbox

  /** A call or an insertion of this slot brought this payload. */
  ghost predicate Offered(events: seq<Event>, slot: Slot, payload: string)
  {
    exists i :: 0 <= i < |events| &&
      match events[i]
      case Begin(_, call) => call.slot == slot && call.payload == payload
      case Insert(_, at, given) => at == slot && given == payload
      case _ => false
  }

  /** The step, taken in `s`, is one of a caller at its first statement, or an insertion, with this slot and payload. */
  ghost predicate Gives(s: Sys, e: Event, id: JobId, slot: Slot, payload: string)
  {
    match e
    case Insert(at, into, given) => at == id && into == slot && given == payload
    case Advance(actor) =>
      && actor in s.actors && s.actors[actor].pc.Starting?
      && s.actors[actor].call.slot == slot && s.actors[actor].call.payload == payload
    case _ => false
  }

  /** A job that a step adds is pending, in the slot and with the payload of that very step, and an enqueuer adds it under
      the id of its slot. */
  lemma NewJobIsGiven(s: Sys, e: Event, id: JobId)
    requires id !in s.jobs && id in Step(s, e).jobs
    ensures var job := Step(s, e).jobs[id];
            && job.state == Pending && Gives(s, e, id, job.slot, job.payload)
            && (e.Advance? ==> id == IdOf(job.slot))
  {
    hide IdOf, Holds;
  }

  /** A payload is rewritten only by a communication of the job's own slot, while the job is pending. */
  lemma RewriteIsGiven(s: Sys, e: Event, id: JobId)
    requires id in s.jobs
    ensures var t := Step(s, e);
            && id in t.jobs && t.jobs[id].slot == s.jobs[id].slot
            && (t.jobs[id].payload != s.jobs[id].payload ==>
                  && s.jobs[id].state == Pending && t.jobs[id].state == Pending
                  && Gives(s, e, id, t.jobs[id].slot, t.jobs[id].payload)
                  && e.Advance? && s.actors[e.actor].call.EnqueueCommunication?)
  {
    hide IdOf, Holds;
    if e.Advance? && e.actor in s.actors {
      EnqueuersOnlyQueuePending(s, e.actor, id);
      RewritesAtStart(s, e.actor, id);
    }
  }

  lemma RewritesAtStart(s: Sys, actor: nat, id: JobId)
    requires id in s.jobs && actor in s.actors
    ensures var t := DoAdvance(s, actor);
            id in t.jobs && (!s.actors[actor].pc.Starting? ==> t.jobs[id].payload == s.jobs[id].payload)
            && t.jobs[id].slot == s.jobs[id].slot
  {
    hide IdOf, Holds;
  }

  /** Event `k` gave job `id` its payload: it created the job, or was a communication that found it pending; and every
      state after it holds that payload. */
  ghost predicate LastGiver(events: seq<Event>, k: nat, id: JobId, slot: Slot, payload: string)
  {
    && k < |events|
    && var s := ExecFrom(INITIAL, events[..k]);
    && Gives(s, events[k], id, slot, payload)
    && (id !in s.jobs ||
        (s.jobs[id].state == Pending && events[k].Advance? && s.actors[events[k].actor].call.EnqueueCommunication?))
    && forall j :: k < j <= |events| ==>
         var t := ExecFrom(INITIAL, events[..j]); id in t.jobs && t.jobs[id].slot == slot && t.jobs[id].payload == payload
  }

  /** In every run each job holds the payload that the creating or a later communicating step brought for the job's own
      slot, since that step. */
  lemma {:induction false} EveryPayloadHasItsGiver(events: seq<Event>, id: JobId) returns (k: nat)
    requires id in ExecFrom(INITIAL, events).jobs
    ensures var job := ExecFrom(INITIAL, events).jobs[id]; LastGiver(events, k, id, job.slot, job.payload)
  {
    hide Step, Gives, LastGiver;
    assert events != [];
    var init, e := events[..|events| - 1], events[|events| - 1];
    var s := ExecFrom(INITIAL, init);
    var t := ExecFrom(INITIAL, events);
    assert t == Step(s, e);
    if id in s.jobs {
      RewriteIsGiven(s, e, id);
      if t.jobs[id].payload == s.jobs[id].payload {
        k := EveryPayloadHasItsGiver(init, id);
        GiverStays(events, k, id);
        return;
      }
    } else {
      NewJobIsGiven(s, e, id);
    }
    k := |events| - 1;
    GivesLast(events, id);
  }

  lemma GivesLast(events: seq<Event>, id: JobId)
    requires events != [] && id in ExecFrom(INITIAL, events).jobs
    requires var s := ExecFrom(INITIAL, events[..|events| - 1]);
             var e := events[|events| - 1];
             var job := ExecFrom(INITIAL, events).jobs[id];
             && Gives(s, e, id, job.slot, job.payload)
             && (id !in s.jobs || (s.jobs[id].state == Pending && e.Advance? && s.actors[e.actor].call.EnqueueCommunication?))
    ensures var job := ExecFrom(INITIAL, events).jobs[id]; LastGiver(events, |events| - 1, id, job.slot, job.payload)
  {
    hide ExecFrom;
    assert events[..|events|] == events;
  }

  lemma GiverStays(events: seq<Event>, k: nat, id: JobId)
    requires events != [] && id in ExecFrom(INITIAL, events).jobs && id in ExecFrom(INITIAL, events[..|events| - 1]).jobs
    requires var x, y := ExecFrom(INITIAL, events[..|events| - 1]).jobs[id], ExecFrom(INITIAL, events).jobs[id];
             x.slot == y.slot && x.payload == y.payload && LastGiver(events[..|events| - 1], k, id, x.slot, x.payload)
    ensures var job := ExecFrom(INITIAL, events).jobs[id]; LastGiver(events, k, id, job.slot, job.payload)
  {
    hide ExecFrom;
    var init := events[..|events| - 1];
    assert init[..k] == events[..k];
    forall j | k < j <= |events|
      ensures var t := ExecFrom(INITIAL, events[..j]);
              var job := ExecFrom(INITIAL, events).jobs[id];
              id in t.jobs && t.jobs[id].slot == job.slot && t.jobs[id].payload == job.payload
    {
      if j < |events| {
        assert init[..j] == events[..j];
      } else {
        assert events[..j] == events;
      }
    }
  }

  /** Every caller's call was brought by the event that began it. */
  lemma {:induction false} CallsWereBegun(events: seq<Event>, actor: nat)
    requires actor in ExecFrom(INITIAL, events).actors
    ensures var call := ExecFrom(INITIAL, events).actors[actor].call; Offered(events, call.slot, call.payload)
  {
    hide Offered;
    var init, e := events[..|events| - 1], events[|events| - 1];
    var s := ExecFrom(INITIAL, init);
    CallStays(s, e, actor);
    var call := ExecFrom(INITIAL, events).actors[actor].call;
    if actor in s.actors {
      CallsWereBegun(init, actor);
      OfferedBefore(events, |events| - 1, call.slot, call.payload);
    } else {
      BeginOffers(events, |events| - 1, actor, call);
    }
  }

  lemma CallStays(s: Sys, e: Event, actor: nat)
    requires actor in Step(s, e).actors
    ensures if actor in s.actors then Step(s, e).actors[actor].call == s.actors[actor].call
            else e == Begin(actor, Step(s, e).actors[actor].call)
  {
    hide DoAdvance;
    if e.Advance? && e.actor in s.actors {
      CallsStay(s, e.actor, actor);
    }
  }

  lemma CallsStay(s: Sys, actor: nat, other: nat)
    requires actor in s.actors
    ensures var t := DoAdvance(s, actor);
            (other in t.actors <==> other in s.actors) && (other in s.actors ==> t.actors[other].call == s.actors[other].call)
  {
    hide IdOf, Holds, Taken, At, IsRowOf;
    forall u: Sys, pc: Pc | u.actors == s.actors
      ensures At(u, actor, pc).actors == s.actors[actor := s.actors[actor].(pc := pc)]
    {
      AtMoves(u, actor, pc);
    }
  }

  lemma AtMoves(s: Sys, actor: nat, pc: Pc)
    requires actor in s.actors
    ensures At(s, actor, pc).actors == s.actors[actor := s.actors[actor].(pc := pc)]
  {
  }

  lemma BeginOffers(events: seq<Event>, i: nat, actor: nat, call: Call)
    requires i < |events| && events[i] == Begin(actor, call)
    ensures Offered(events, call.slot, call.payload)
  {
  }

  lemma OfferedBefore(events: seq<Event>, k: nat, slot: Slot, payload: string)
    requires k <= |events| && Offered(events[..k], slot, payload)
    ensures Offered(events, slot, payload)
  {
    var i :| 0 <= i < k &&
      match events[..k][i]
      case Begin(_, call) => call.slot == slot && call.payload == payload
      case Insert(_, at, given) => at == slot && given == payload
      case _ => false;
    assert events[i] == events[..k][i];
  }

  /** In every run each job's payload is one that some call or insertion brought for that very slot. */
  lemma PayloadsAreOffered(events: seq<Event>, id: JobId)
    requires id in ExecFrom(INITIAL, events).jobs
    ensures var job := ExecFrom(INITIAL, events).jobs[id]; Offered(events, job.slot, job.payload)
  {
    hide ExecFrom, Offered;
    var job := ExecFrom(INITIAL, events).jobs[id];
    var k := EveryPayloadHasItsGiver(events, id);
    match events[k]
    case Advance(actor) =>
      CallsWereBegun(events[..k], actor);
      OfferedBefore(events, k, job.slot, job.payload);
    case Insert(_, _, _) => InsertOffers(events, k, job.slot, job.payload);
    case _ =>
  }

  lemma InsertOffers(events: seq<Event>, i: nat, slot: Slot, payload: string)
    requires i < |events| && events[i].Insert? && events[i].slot == slot && events[i].payload == payload
    ensures Offered(events, slot, payload)
  {
  }

  /** Where nobody uses the communication variant, the payload of a job is that of the step that created it. */
  lemma CreatorsPayloadStays(events: seq<Event>, id: JobId) returns (k: nat)
    requires OnlyEnqueueEvents(events) && id in ExecFrom(INITIAL, events).jobs
    ensures var job := ExecFrom(INITIAL, events).jobs[id];
            k < |events| && id !in ExecFrom(INITIAL, events[..k]).jobs &&
            Gives(ExecFrom(INITIAL, events[..k]), events[k], id, job.slot, job.payload)
  {
    hide ExecFrom;
    k := EveryPayloadHasItsGiver(events, id);
    OnlyEnqueuesBefore(events[..k]);
  }

  lemma OnlyEnqueuesBefore(events: seq<Event>)
    requires OnlyEnqueueEvents(events)
    ensures OnlyEnqueues(ExecFrom(INITIAL, events))
  {
    hide ExecFrom;
    EnqueueKeepsPayloads(INITIAL, events);
  }

  // ---------------------------------------------------------------------------------------------
  // One statement, and a call on its own
  // ---------------------------------------------------------------------------------------------

  /** The first statement of a communication leaves exactly its own payload in the job of its slot when the job is absent
      or pending, and nothing changed when the job has moved on or the id belongs to another slot. */
  lemma CommunicationLeavesItsPayload(s: Sys, actor: nat)
    requires OneRowPerSlot(s.jobs) && actor in s.actors
    requires s.actors[actor].pc.Starting? && s.actors[actor].call.EnqueueCommunication?
    ensures var call := s.actors[actor].call;
            var t := Step(s, Advance(actor));
            && (forall id :: id in s.jobs && s.jobs[id].slot == call.slot ==>
                  t.jobs == if s.jobs[id].state == Pending then s.jobs[id := Job(call.slot, call.payload, Pending)] else s.jobs)
            && (!Taken(s.jobs, call.slot) ==>
                  t.jobs == if IdOf(call.slot) in s.jobs then s.jobs
                            else s.jobs[IdOf(call.slot) := Job(call.slot, call.payload, Pending)])
  {
    hide IdOf;
  }

  /** The same statement of a plain call stages its payload only into a free slot, under a current decision. */
  lemma EnqueueStagesItsPayload(s: Sys, actor: nat)
    requires actor in s.actors && s.actors[actor].pc.Starting? && s.actors[actor].call.Enqueue?
    ensures var call := s.actors[actor].call;
            Step(s, Advance(actor)).jobs ==
            if Taken(s.jobs, call.slot) || IdOf(call.slot) in s.jobs || !Holds(s, call.fence) then s.jobs
            else s.jobs[IdOf(call.slot) := Job(call.slot, call.payload, Pending)]
  {
    hide IdOf;
  }

  ghost function Alone(s: Sys, actor: nat, steps: nat): Sys
  {
    if steps == 0 then s else Step(Alone(s, actor, steps - 1), Advance(actor))
  }

  lemma Steps(s: Sys, actor: nat)
    ensures var step := (t: Sys) => Step(t, Advance(actor));
            && Alone(s, actor, 1) == step(s)
            && Alone(s, actor, 2) == step(step(s))
            && Alone(s, actor, 3) == step(step(step(s)))
  {
    assert Alone(s, actor, 3) == Step(Alone(s, actor, 2), Advance(actor));
    assert Alone(s, actor, 2) == Step(Alone(s, actor, 1), Advance(actor));
  }

  lemma {:induction false} AloneTwice(s: Sys, actor: nat, a: nat, b: nat)
    ensures Alone(s, actor, a + b) == Alone(Alone(s, actor, a), actor, b)
    decreases b
  {
    hide Step;
    if b > 0 {
      AloneTwice(s, actor, a, b - 1);
    }
  }

  lemma {:induction false} EndedStays(s: Sys, actor: nat, steps: nat)
    requires actor in s.actors && s.actors[actor].pc.Ended?
    ensures Alone(s, actor, steps) == s
  {
    hide IdOf, Holds;
    if steps > 0 {
      EndedStays(s, actor, steps - 1);
    }
  }

  /** What a call that runs by itself is for: the job of its slot queued, and a message for it. */
  ghost predicate Dispatched(s: Sys, t: Sys, actor: nat, slot: Slot, id: JobId, payload: string)
  {
    && t.jobs == s.jobs[id := Job(slot, payload, Queued)]
    && t.sent == s.sent + {Message(id, slot.tenant, slot.topic)}
    && actor in t.actors && t.actors[actor].pc == Ended(Sent)
  }

  ghost predicate LeftAlone(s: Sys, t: Sys, actor: nat, outcome: Outcome)
  {
    t.jobs == s.jobs && t.sent == s.sent && actor in t.actors && t.actors[actor].pc == Ended(outcome)
  }

  /** From the decision to send on: message, mark, end. */
  lemma SendingDispatches(s: Sys, actor: nat, id: JobId, steps: nat)
    requires actor in s.actors && s.actors[actor].pc == Sending(id) && steps >= 2
    requires id in s.jobs && s.jobs[id].slot == s.actors[actor].call.slot && s.jobs[id].state == Pending
    ensures Dispatched(s, Alone(s, actor, steps), actor, s.jobs[id].slot, id, s.jobs[id].payload)
  {
    hide IdOf;
    Steps(s, actor);
    AloneTwice(s, actor, 2, steps - 2);
    EndedStays(Alone(s, actor, 2), actor, steps - 2);
  }

  /** The state in which a plain call stands after it staged its job, read it back where need be, and checked its fence. */
  lemma EnqueueDecides(s: Sys, actor: nat, t: Sys, steps: nat)
    requires actor in s.actors && s.actors[actor].pc.Starting? && s.actors[actor].call.Enqueue?
    requires Holds(s, s.actors[actor].call.fence)
    requires var call := s.actors[actor].call;
             var id := IdOf(call.slot);
             var staged := if id in s.jobs then s.jobs else s.jobs[id := Job(call.slot, call.payload, Pending)];
             && (id in s.jobs ==> s.jobs[id].slot == call.slot)
             && (id !in s.jobs ==> !Taken(s.jobs, call.slot))
             && steps == 1 + (if id in s.jobs then 1 else 0)
                           + (if call.fence.Some? && staged[id].state == Pending then 1 else 0)
             && t == s.(jobs := staged,
                        actors := s.actors[actor := Actor(call, if staged[id].state == Pending then Sending(id)
                                                                else Ended(Skipped(Some(staged[id].state))))])
    ensures Alone(s, actor, steps) == t
  {
    hide IdOf;
    Steps(s, actor);
  }

  /** A plain call that nobody interrupts, with no fence or a current one: a new job is staged with its payload, sent and
      queued; a pending job is sent and queued as it is; a job that moved on is left alone. */
  lemma EnqueueAloneDispatches(s: Sys, actor: nat)
    requires actor in s.actors && s.actors[actor].pc.Starting? && s.actors[actor].call.Enqueue?
    requires Holds(s, s.actors[actor].call.fence)
    ensures var call := s.actors[actor].call;
            var id := IdOf(call.slot);
            var t := Alone(s, actor, 5);
            && (!Taken(s.jobs, call.slot) && id !in s.jobs ==> Dispatched(s, t, actor, call.slot, id, call.payload))
            && (id in s.jobs && s.jobs[id].slot == call.slot ==>
                  if s.jobs[id].state == Pending then Dispatched(s, t, actor, call.slot, id, s.jobs[id].payload)
                  else LeftAlone(s, t, actor, Skipped(Some(s.jobs[id].state))))
  {
    hide IdOf, Alone, Step, Holds;
    var call := s.actors[actor].call;
    var id := IdOf(call.slot);
    if (!Taken(s.jobs, call.slot) && id !in s.jobs) || (id in s.jobs && s.jobs[id].slot == call.slot) {
      var staged := if id in s.jobs then s.jobs else s.jobs[id := Job(call.slot, call.payload, Pending)];
      var pending := staged[id].state == Pending;
      var steps := 1 + (if id in s.jobs then 1 else 0) + (if call.fence.Some? && pending then 1 else 0);
      var pc := if pending then Sending(id) else Ended(Skipped(Some(staged[id].state)));
      var t := s.(jobs := staged, actors := s.actors[actor := Actor(call, pc)]);
      EnqueueDecides(s, actor, t, steps);
      AloneTwice(s, actor, steps, 5 - steps);
      if pending {
        SendingDispatches(t, actor, id, 5 - steps);
      } else {
        EndedStays(t, actor, 5 - steps);
      }
    }
  }

  /** Under a decision that is not the current one a fenced call stages and sends nothing. */
  lemma FencedAloneDoesNothing(s: Sys, actor: nat)
    requires actor in s.actors && s.actors[actor].pc.Starting? && s.actors[actor].call.Enqueue?
    requires !Holds(s, s.actors[actor].call.fence)
    ensures var id := IdOf(s.actors[actor].call.slot);
            LeftAlone(s, Alone(s, actor, 5), actor,
                      if id !in s.jobs then Skipped(None)
                      else if s.jobs[id].state != Pending then Skipped(Some(s.jobs[id].state))
                      else Fenced)
  {
    hide IdOf, Alone, Step, Holds;
    var call := s.actors[actor].call;
    var id := IdOf(call.slot);
    var steps := if id in s.jobs && s.jobs[id].state == Pending then 3 else 2;
    var outcome := if id !in s.jobs then Skipped(None)
                   else if s.jobs[id].state != Pending then Skipped(Some(s.jobs[id].state))
                   else Fenced;
    var t := s.(actors := s.actors[actor := Actor(call, Ended(outcome))]);
    FencedEnds(s, actor, t, steps);
    AloneTwice(s, actor, steps, 5 - steps);
    EndedStays(t, actor, 5 - steps);
  }

  lemma FencedEnds(s: Sys, actor: nat, t: Sys, steps: nat)
    requires actor in s.actors && s.actors[actor].pc.Starting? && s.actors[actor].call.Enqueue?
    requires !Holds(s, s.actors[actor].call.fence)
    requires var call := s.actors[actor].call;
             var id := IdOf(call.slot);
             && steps == (if id in s.jobs && s.jobs[id].state == Pending then 3 else 2)
             && t == s.(actors := s.actors[actor := Actor(call, Ended(
                          if id !in s.jobs then Skipped(None)
                          else if s.jobs[id].state != Pending then Skipped(Some(s.jobs[id].state))
                          else Fenced))])
    ensures Alone(s, actor, steps) == t
  {
    hide IdOf, Taken;
    Steps(s, actor);
  }

  lemma CommunicationDecides(s: Sys, actor: nat, id: JobId, t: Sys)
    requires OneRowPerSlot(s.jobs) && actor in s.actors
    requires s.actors[actor].pc.Starting? && s.actors[actor].call.EnqueueCommunication?
    requires var call := s.actors[actor].call;
             var own := Job(call.slot, call.payload, Pending);
             && (if id in s.jobs then s.jobs[id].slot == call.slot else id == IdOf(call.slot) && !Taken(s.jobs, call.slot))
             && t == if id in s.jobs && s.jobs[id].state != Pending
                     then s.(actors := s.actors[actor := Actor(call, Ended(Skipped(Some(s.jobs[id].state))))])
                     else s.(jobs := s.jobs[id := own], actors := s.actors[actor := Actor(call, Sending(id))])
    ensures Alone(s, actor, 2) == t
  {
    hide IdOf, Step, OneRowPerSlot;
    Steps(s, actor);
    var u := s.(jobs := t.jobs, actors := s.actors[actor := s.actors[actor].(pc := Reading)]);
    UpsertsAt(s, actor, id, u);
    ReadsAt(u, actor, id);
  }

  lemma UpsertsAt(s: Sys, actor: nat, id: JobId, u: Sys)
    requires OneRowPerSlot(s.jobs) && actor in s.actors
    requires s.actors[actor].pc.Starting? && s.actors[actor].call.EnqueueCommunication?
    requires var call := s.actors[actor].call;
             && (if id in s.jobs then s.jobs[id].slot == call.slot else id == IdOf(call.slot) && !Taken(s.jobs, call.slot))
             && u == s.(jobs := if id in s.jobs && s.jobs[id].state != Pending then s.jobs
                                else s.jobs[id := Job(call.slot, call.payload, Pending)],
                        actors := s.actors[actor := s.actors[actor].(pc := Reading)])
    ensures Step(s, Advance(actor)) == u && OneRowPerSlot(u.jobs)
  {
    hide IdOf;
    CommunicationLeavesItsPayload(s, actor);
    if id in s.jobs {
      assert Taken(s.jobs, s.actors[actor].call.slot);
    }
  }

  lemma ReadsAt(s: Sys, actor: nat, id: JobId)
    requires OneRowPerSlot(s.jobs) && actor in s.actors
    requires s.actors[actor].pc.Reading? && s.actors[actor].call.EnqueueCommunication?
    requires id in s.jobs && s.jobs[id].slot == s.actors[actor].call.slot
    ensures Step(s, Advance(actor)) ==
            s.(actors := s.actors[actor := s.actors[actor].(
                 pc := if s.jobs[id].state == Pending then Sending(id) else Ended(Skipped(Some(s.jobs[id].state))))])
  {
    hide IdOf;
    assert RowOf(s.jobs, s.actors[actor].call.slot) == id;
  }

  /** A communication that nobody interrupts sends and queues the job of its slot with its own payload, unless the job
      has moved on. */
  lemma CommunicationAloneDispatches(s: Sys, actor: nat, id: JobId)
    requires OneRowPerSlot(s.jobs) && actor in s.actors
    requires s.actors[actor].pc.Starting? && s.actors[actor].call.EnqueueCommunication?
    requires var slot := s.actors[actor].call.slot;
             if id in s.jobs then s.jobs[id].slot == slot else id == IdOf(slot) && !Taken(s.jobs, slot)
    ensures var call := s.actors[actor].call;
            var t := Alone(s, actor, 5);
            if id in s.jobs && s.jobs[id].state != Pending then LeftAlone(s, t, actor, Skipped(Some(s.jobs[id].state)))
            else Dispatched(s, t, actor, call.slot, id, call.payload)
  {
    hide IdOf, Alone, Step, OneRowPerSlot;
    var call := s.actors[actor].call;
    AloneTwice(s, actor, 2, 3);
    if id in s.jobs && s.jobs[id].state != Pending {
      var t := s.(actors := s.actors[actor := Actor(call, Ended(Skipped(Some(s.jobs[id].state))))]);
      CommunicationDecides(s, actor, id, t);
      EndedStays(t, actor, 3);
    } else {
      var t := s.(jobs := s.jobs[id := Job(call.slot, call.payload, Pending)],
                  actors := s.actors[actor := Actor(call, Sending(id))]);
      CommunicationDecides(s, actor, id, t);
      SendingDispatches(t, actor, id, 3);
    }
  }

  /** The consumer claims exactly a pending or queued job it was sent a message of, and moves a claimed one to any state
      but back to pending; it changes nothing else about a job. */
  lemma ConsumerMovesExactly(s: Sys, id: JobId, state: State)
    requires id in s.jobs
    ensures var claimed := Step(s, Claim(id)).jobs[id];
            && claimed == s.jobs[id].(state := claimed.state)
            && claimed.state == if (s.jobs[id].state == Pending || s.jobs[id].state == Queued) && IsSent(s, id)
                                then Processing else s.jobs[id].state
    ensures var finished := Step(s, Finish(id, state)).jobs[id];
            && finished == s.jobs[id].(state := finished.state)
            && finished.state == if s.jobs[id].state == Processing && state != Pending then state else s.jobs[id].state
  {
  }
}
