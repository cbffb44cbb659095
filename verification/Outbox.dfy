/** The delivery outbox: concurrent enqueuers that stage a job, send its message and mark it queued, each step a statement
    of its own, beside a consumer that advances jobs, other writers of the table, and crashes. */
module Outbox {
  import opened Basics
  import opened Text

  datatype Slot = Slot(tenant: string, topic: string, key: string)

  datatype JobId = JobId(text: string)

  datatype State = Pending | Queued | Processing | Delivered | Failed | DeadLetter

  datatype Job = Job(slot: Slot, payload: string, state: State)

  datatype Message = Message(id: JobId, tenant: string, topic: string)

  datatype DecisionKey = DecisionKey(tenant: string, event: string, plan: string, submission: string)
  datatype Decision = Decision(version: int, status: string)
  datatype Fence = Fence(key: DecisionKey, decision: Decision)

  /** `Enqueue` never rewrites a payload; `EnqueueCommunication` does while the job is pending. */
  datatype Call =
    | Enqueue(slot: Slot, payload: string, fence: Option<Fence>)
    | EnqueueCommunication(slot: Slot, payload: string)

  datatype Outcome = Sent | Skipped(state: Option<State>) | Fenced | Refused

  datatype Pc = Starting | Reading | Fencing | Sending(id: JobId) | Marking(id: JobId) | Ended(outcome: Outcome)

  datatype Actor = Actor(call: Call, pc: Pc)

  datatype Sys = Sys(
    jobs: map<JobId, Job>, actors: map<nat, Actor>, decisions: map<DecisionKey, Decision>, sent: set<Message>)

  datatype Event =
    | Begin(actor: nat, call: Call)
    | Advance(actor: nat)
    | Crash(actor: nat)
    | Decide(key: DecisionKey, decision: Decision)
    | Insert(id: JobId, slot: Slot, payload: string)
    | Redispatch(id: JobId)
    | Claim(id: JobId)
    | Finish(id: JobId, state: State)

  const INITIAL := Sys(map[], map[], map[], {})

  function IdOf(slot: Slot): JobId
  {
    JobId("runtime:" + Joined(slot.tenant, ':', Joined(slot.topic, ':', slot.key)))
  }

  predicate Taken(jobs: map<JobId, Job>, slot: Slot)
  {
    exists id :: id in jobs && jobs[id].slot == slot
  }

  /** The row of a slot; the unique index lets there be only one. */
  ghost predicate IsRowOf(jobs: map<JobId, Job>, slot: Slot, id: JobId)
  {
    id in jobs && jobs[id].slot == slot
  }

  ghost function RowOf(jobs: map<JobId, Job>, slot: Slot): (id: JobId)
    requires Taken(jobs, slot)
    ensures IsRowOf(jobs, slot, id)
  {
    var id :| id in jobs && jobs[id].slot == slot;
    id
  }

  /** The unique index of the table. */
  ghost predicate OneRowPerSlot(jobs: map<JobId, Job>)
  {
    forall a, b :: a in jobs && b in jobs && jobs[a].slot == jobs[b].slot ==> a == b
  }

  function At(s: Sys, actor: nat, pc: Pc): Sys
  {
    if actor in s.actors then s.(actors := s.actors[actor := s.actors[actor].(pc := pc)]) else s
  }

  predicate Holds(s: Sys, fence: Option<Fence>)
  {
    fence.Some? ==> fence.value.key in s.decisions && s.decisions[fence.value.key] == fence.value.decision
  }

  /** INSERT with ON CONFLICT on the slot DO NOTHING: a taken slot inserts nothing, a taken id fails. */
  function DoStage(s: Sys, actor: nat, slot: Slot, payload: string, fence: Option<Fence>): Sys
  {
    if !Holds(s, fence) || Taken(s.jobs, slot) then At(s, actor, Reading)
    else if IdOf(slot) in s.jobs then At(s, actor, Ended(Refused))
    else
      At(s.(jobs := s.jobs[IdOf(slot) := Job(slot, payload, Pending)]), actor,
         if fence.Some? then Fencing else Sending(IdOf(slot)))
  }

  function DoReadState(s: Sys, actor: nat, slot: Slot, fence: Option<Fence>): Sys
  {
    if IdOf(slot) !in s.jobs then At(s, actor, Ended(Skipped(None)))
    else if s.jobs[IdOf(slot)].state != Pending then At(s, actor, Ended(Skipped(Some(s.jobs[IdOf(slot)].state))))
    else At(s, actor, if fence.Some? then Fencing else Sending(IdOf(slot)))
  }

  function DoFence(s: Sys, actor: nat, slot: Slot, fence: Option<Fence>): Sys
  {
    At(s, actor, if Holds(s, fence) then Sending(IdOf(slot)) else Ended(Fenced))
  }

  /** INSERT with ON CONFLICT on the slot DO UPDATE of the payload while the job is pending. */
  ghost function DoUpsert(s: Sys, actor: nat, slot: Slot, payload: string): Sys
  {
    if Taken(s.jobs, slot) then
      var id := RowOf(s.jobs, slot);
      At(if s.jobs[id].state == Pending then s.(jobs := s.jobs[id := s.jobs[id].(payload := payload)]) else s, actor, Reading)
    else if IdOf(slot) in s.jobs then At(s, actor, Ended(Refused))
    else At(s.(jobs := s.jobs[IdOf(slot) := Job(slot, payload, Pending)]), actor, Reading)
  }

  ghost function DoReadRow(s: Sys, actor: nat, slot: Slot): Sys
  {
    if !Taken(s.jobs, slot) then At(s, actor, Ended(Skipped(None)))
    else
      var id := RowOf(s.jobs, slot);
      At(s, actor, if s.jobs[id].state == Pending then Sending(id) else Ended(Skipped(Some(s.jobs[id].state))))
  }

  function DoSend(s: Sys, actor: nat, id: JobId, slot: Slot): Sys
  {
    At(s.(sent := s.sent + {Message(id, slot.tenant, slot.topic)}), actor, Marking(id))
  }

  function DoMark(s: Sys, actor: nat, id: JobId): Sys
  {
    At(if id in s.jobs && s.jobs[id].state == Pending then s.(jobs := s.jobs[id := s.jobs[id].(state := Queued)]) else s,
       actor, Ended(Sent))
  }

  ghost function DoAdvance(s: Sys, actor: nat): Sys
    requires actor in s.actors
  {
    var a := s.actors[actor];
    match a.pc
    case Starting =>
      (match a.call
       case Enqueue(slot, payload, fence) => DoStage(s, actor, slot, payload, fence)
       case EnqueueCommunication(slot, payload) => DoUpsert(s, actor, slot, payload))
    case Reading =>
      (match a.call
       case Enqueue(slot, _, fence) => DoReadState(s, actor, slot, fence)
       case EnqueueCommunication(slot, _) => DoReadRow(s, actor, slot))
    case Fencing => (match a.call case Enqueue(slot, _, fence) => DoFence(s, actor, slot, fence) case _ => s)
    case Sending(id) => DoSend(s, actor, id, a.call.slot)
    case Marking(id) => DoMark(s, actor, id)
    case Ended(_) => s
  }

  predicate IsSent(s: Sys, id: JobId)
  {
    exists m :: m in s.sent && m.id == id
  }

  function DoInsert(s: Sys, id: JobId, slot: Slot, payload: string): Sys
  {
    if id in s.jobs || Taken(s.jobs, slot) then s else s.(jobs := s.jobs[id := Job(slot, payload, Pending)])
  }

  /** Another dispatcher sends the message of a job. */
  function DoRedispatch(s: Sys, id: JobId): Sys
  {
    if id in s.jobs then s.(sent := s.sent + {Message(id, s.jobs[id].slot.tenant, s.jobs[id].slot.topic)}) else s
  }

  function SetState(s: Sys, id: JobId, state: State): Sys
    requires id in s.jobs
  {
    s.(jobs := s.jobs[id := s.jobs[id].(state := state)])
  }

  /** The consumer claims a pending or queued job it got a message of. */
  function DoClaim(s: Sys, id: JobId): Sys
  {
    if IsSent(s, id) && id in s.jobs && (s.jobs[id].state == Pending || s.jobs[id].state == Queued)
    then SetState(s, id, Processing) else s
  }

  /** The consumer delivers, retries or gives up a claimed job. */
  function DoFinish(s: Sys, id: JobId, state: State): Sys
  {
    if id in s.jobs && s.jobs[id].state == Processing && state != Pending && state != Processing
    then SetState(s, id, state) else s
  }

  ghost function Step(s: Sys, e: Event): Sys
  {
    match e
    case Begin(actor, call) => if actor in s.actors then s else s.(actors := s.actors[actor := Actor(call, Starting)])
    case Advance(actor) => if actor in s.actors then DoAdvance(s, actor) else s
    case Crash(actor) => s.(actors := s.actors - {actor})
    case Decide(key, decision) => s.(decisions := s.decisions[key := decision])
    case Insert(id, slot, payload) => DoInsert(s, id, slot, payload)
    case Redispatch(id) => DoRedispatch(s, id)
    case Claim(id) => DoClaim(s, id)
    case Finish(id, state) => DoFinish(s, id, state)
  }

  ghost function ExecFrom(s: Sys, events: seq<Event>): Sys
  {
    if events == [] then s else Step(ExecFrom(s, events[..|events| - 1]), events[|events| - 1])
  }

  // ---------------------------------------------------------------------------------------------
  // Job ids
  // ---------------------------------------------------------------------------------------------

  /** A tenant and a topic in use. */
  datatype Scope = Scope(tenant: string, topic: string)

  function ScopeOf(slot: Slot): Scope
  {
    Scope(slot.tenant, slot.topic)
  }

  /** What a job id holds before the key. */
  function ScopeText(c: Scope): string
  {
    Joined(c.tenant, ':', Joined(c.topic, ':', ""))
  }

  /** No scope's text begins another's. */
  ghost predicate PrefixFree(scopes: set<Scope>)
  {
    forall a, b :: a in scopes && b in scopes && a != b ==> !(ScopeText(a) <= ScopeText(b))
  }

  lemma IdIsScopeAndKey(slot: Slot)
    ensures IdOf(slot).text == "runtime:" + (ScopeText(ScopeOf(slot)) + slot.key)
  {
    assert Joined(slot.tenant, ':', Joined(slot.topic, ':', slot.key)) == ScopeText(ScopeOf(slot)) + slot.key;
  }

  /** Over prefix-free scopes an id belongs to one slot. */
  lemma IdsAreDistinct(scopes: set<Scope>, a: Slot, b: Slot)
    requires PrefixFree(scopes) && ScopeOf(a) in scopes && ScopeOf(b) in scopes && IdOf(a) == IdOf(b)
    ensures a == b
  {
    hide IdOf, ScopeText;
    IdIsScopeAndKey(a);
    IdIsScopeAndKey(b);
    var x, y := ScopeText(ScopeOf(a)), ScopeText(ScopeOf(b));
    assert x + a.key == IdOf(a).text[8..] == IdOf(b).text[8..] == y + b.key;
    assert |x| <= |y| ==> x == (y + b.key)[..|x|] == y[..|x|];
    assert |y| <= |x| ==> y == (x + a.key)[..|y|] == x[..|y|];
    assert |x| <= |y| ==> x <= y;
    assert |y| <= |x| ==> y <= x;
    assert ScopeOf(a) == ScopeOf(b);
    assert a.key == (x + a.key)[|x|..] == (y + b.key)[|x|..];
  }

  /** Where one scope's text begins another's, two slots share an id. */
  lemma IdsCollide(a: Scope, b: Scope) returns (x: Slot, y: Slot)
    requires a != b && ScopeText(a) <= ScopeText(b)
    ensures ScopeOf(x) == a && ScopeOf(y) == b && x != y && IdOf(x) == IdOf(y)
  {
    hide IdOf, ScopeText;
    var rest := ScopeText(b)[|ScopeText(a)|..];
    x, y := Slot(a.tenant, a.topic, rest), Slot(b.tenant, b.topic, "");
    IdIsScopeAndKey(x);
    IdIsScopeAndKey(y);
    assert ScopeText(a) + rest == ScopeText(b) == ScopeText(b) + "";
  }

  /** Scopes without colons are prefix-free. */
  lemma ColonFreeIsPrefixFree(scopes: set<Scope>)
    requires forall c :: c in scopes ==> ':' !in c.tenant && ':' !in c.topic
    ensures PrefixFree(scopes)
  {
    forall a, b | a in scopes && b in scopes && ScopeText(a) <= ScopeText(b) ensures a == b {
      var rest := ScopeText(b)[|ScopeText(a)|..];
      assert ScopeText(b) == ScopeText(a) + rest == Joined(a.tenant, ':', Joined(a.topic, ':', rest));
      JoinedSplits(a.tenant, Joined(a.topic, ':', rest), b.tenant, Joined(b.topic, ':', ""), ':');
      JoinedSplits(a.topic, rest, b.topic, "", ':');
    }
  }

  // ---------------------------------------------------------------------------------------------
  // Invariant
  // ---------------------------------------------------------------------------------------------

  /** The row a call works on. */
  ghost predicate IsJobOf(s: Sys, call: Call, id: JobId)
  {
    && id in s.jobs
    && (call.Enqueue? ==> id == IdOf(call.slot))
    && (call.EnqueueCommunication? ==> s.jobs[id].slot == call.slot)
  }

  ghost predicate JobSent(s: Sys, call: Call)
  {
    exists id :: IsJobOf(s, call, id) && IsSent(s, id)
  }

  ghost predicate ActorOk(s: Sys, a: Actor)
  {
    match a.pc
    case Starting => true
    case Reading => (a.call.Enqueue? ==> a.call.fence.None?) ==> Taken(s.jobs, a.call.slot)
    case Fencing => a.call.Enqueue? && a.call.fence.Some? && IdOf(a.call.slot) in s.jobs
    case Sending(id) => IsJobOf(s, a.call, id)
    case Marking(id) => IsJobOf(s, a.call, id) && IsSent(s, id)
    case Ended(Sent) => JobSent(s, a.call)
    case Ended(Skipped(Some(state))) => state != Pending && JobSent(s, a.call)
    case Ended(Skipped(None)) => a.call.Enqueue? && (a.call.fence.None? ==> Taken(s.jobs, a.call.slot))
    case Ended(Fenced) => a.call.Enqueue? && a.call.fence.Some?
    case Ended(Refused) => true
  }

  ghost predicate JobsSent(s: Sys)
  {
    forall id :: id in s.jobs && s.jobs[id].state != Pending ==> IsSent(s, id)
  }

  ghost predicate ActorsOk(s: Sys)
  {
    forall actor :: actor in s.actors ==> ActorOk(s, s.actors[actor])
  }

  ghost predicate Invariant(s: Sys)
  {
    OneRowPerSlot(s.jobs) && JobsSent(s) && ActorsOk(s)
  }

  /** What no step takes back: jobs and messages stay, a job never returns to pending, its payload is frozen once it left
      pending, and a delivered, failed or dead-letter job is final. */
  ghost predicate Onward(s: Sys, t: Sys)
  {
    && (forall id :: id in s.jobs ==> id in t.jobs && OnwardJob(s.jobs[id], t.jobs[id]))
    && s.sent <= t.sent
  }

  predicate Final(state: State)
  {
    state == Delivered || state == Failed || state == DeadLetter
  }

  predicate OnwardJob(x: Job, y: Job)
  {
    && y.slot == x.slot
    && (x.state != Pending ==> y.state != Pending && y.payload == x.payload)
    && (Final(x.state) ==> y == x)
  }

  lemma OnwardKeepsActor(s: Sys, t: Sys, a: Actor)
    requires Onward(s, t) && ActorOk(s, a)
    ensures ActorOk(t, a)
  {
    hide IdOf;
    assert forall id :: IsSent(s, id) ==> IsSent(t, id);
    assert forall id :: IsJobOf(s, a.call, id) ==> IsJobOf(t, a.call, id);
    if Taken(s.jobs, a.call.slot) {
      var id :| id in s.jobs && s.jobs[id].slot == a.call.slot;
      assert id in t.jobs && t.jobs[id].slot == a.call.slot;
    }
  }

  /** A step that moves one actor, in a state that only went onward. */
  lemma MoveKeeps(s: Sys, t: Sys, actor: nat)
    requires Invariant(s) && Onward(s, t) && OneRowPerSlot(t.jobs) && JobsSent(t)
    requires forall o :: o in t.actors && o != actor ==> o in s.actors && t.actors[o] == s.actors[o]
    requires actor in t.actors ==> ActorOk(t, t.actors[actor])
    ensures Invariant(t)
  {
    hide ActorOk, Onward, JobsSent, OneRowPerSlot;
    forall o | o in t.actors ensures ActorOk(t, t.actors[o]) {
      if o != actor {
        OnwardKeepsActor(s, t, s.actors[o]);
      }
    }
  }

  lemma SameIsOnward(s: Sys, t: Sys)
    requires t.jobs == s.jobs && s.sent <= t.sent
    ensures Onward(s, t)
  {
  }

  /** A new pending row in a free slot. */
  lemma NewRowKeeps(s: Sys, t: Sys, id: JobId, slot: Slot, payload: string)
    requires id !in s.jobs && !Taken(s.jobs, slot) && t.jobs == s.jobs[id := Job(slot, payload, Pending)] && t.sent == s.sent
    ensures Onward(s, t)
    ensures OneRowPerSlot(s.jobs) ==> OneRowPerSlot(t.jobs)
    ensures JobsSent(s) ==> JobsSent(t)
    ensures Taken(t.jobs, slot)
  {
    assert t.jobs[id].slot == slot;
  }

  /** A row that changes its state or, while pending, its payload. */
  lemma ChangedRowKeeps(s: Sys, t: Sys, id: JobId, job: Job)
    requires id in s.jobs && OnwardJob(s.jobs[id], job) && t.jobs == s.jobs[id := job] && t.sent == s.sent
    requires job.state != Pending ==> IsSent(s, id)
    ensures Onward(s, t)
    ensures OneRowPerSlot(s.jobs) ==> OneRowPerSlot(t.jobs)
    ensures JobsSent(s) ==> JobsSent(t)
  {
  }

  lemma StageKeeps(s: Sys, actor: nat)
    requires Invariant(s) && actor in s.actors && s.actors[actor].pc.Starting? && s.actors[actor].call.Enqueue?
    ensures var c := s.actors[actor].call; var t := DoStage(s, actor, c.slot, c.payload, c.fence);
            Invariant(t) && Onward(s, t)
  {
    hide OneRowPerSlot, JobsSent, IdOf, Onward;
    var c := s.actors[actor].call;
    var t := DoStage(s, actor, c.slot, c.payload, c.fence);
    if IdOf(c.slot) in t.jobs && IdOf(c.slot) !in s.jobs {
      NewRowKeeps(s, t, IdOf(c.slot), c.slot, c.payload);
    } else {
      SameIsOnward(s, t);
      SameStore(s, t);
    }
    MoveKeeps(s, t, actor);
  }

  lemma SameStore(s: Sys, t: Sys)
    requires t.jobs == s.jobs && s.sent <= t.sent
    ensures OneRowPerSlot(s.jobs) ==> OneRowPerSlot(t.jobs)
    ensures JobsSent(s) ==> JobsSent(t)
  {
    forall id | id in s.jobs && IsSent(s, id) ensures IsSent(t, id) {
      var m :| m in s.sent && m.id == id;
      assert m in t.sent;
    }
  }

  lemma ReadStateKeeps(s: Sys, actor: nat)
    requires Invariant(s) && actor in s.actors && s.actors[actor].pc.Reading? && s.actors[actor].call.Enqueue?
    ensures var c := s.actors[actor].call; var t := DoReadState(s, actor, c.slot, c.fence);
            Invariant(t) && Onward(s, t)
  {
    hide OneRowPerSlot, IdOf, Onward;
    var c := s.actors[actor].call;
    var t := DoReadState(s, actor, c.slot, c.fence);
    SameIsOnward(s, t);
    SameStore(s, t);
    assert ActorOk(s, s.actors[actor]);
    if IdOf(c.slot) in s.jobs && s.jobs[IdOf(c.slot)].state != Pending {
      assert IsJobOf(s, c, IdOf(c.slot)) && IsSent(s, IdOf(c.slot));
      assert IsJobOf(t, c, IdOf(c.slot)) && IsSent(t, IdOf(c.slot));
    }
    MoveKeeps(s, t, actor);
  }

  lemma UpsertKeeps(s: Sys, actor: nat)
    requires Invariant(s) && actor in s.actors && s.actors[actor].pc.Starting? && s.actors[actor].call.EnqueueCommunication?
    ensures var c := s.actors[actor].call; var t := DoUpsert(s, actor, c.slot, c.payload);
            Invariant(t) && Onward(s, t)
  {
    hide OneRowPerSlot, JobsSent, IdOf, Onward;
    var c := s.actors[actor].call;
    var t := DoUpsert(s, actor, c.slot, c.payload);
    if Taken(s.jobs, c.slot) {
      var id := RowOf(s.jobs, c.slot);
      assert t.jobs[id].slot == c.slot;
      if s.jobs[id].state == Pending {
        ChangedRowKeeps(s, t, id, s.jobs[id].(payload := c.payload));
      } else {
        SameIsOnward(s, t);
        SameStore(s, t);
      }
    } else if IdOf(c.slot) in s.jobs {
      SameIsOnward(s, t);
      SameStore(s, t);
    } else {
      NewRowKeeps(s, t, IdOf(c.slot), c.slot, c.payload);
    }
    MoveKeeps(s, t, actor);
  }

  lemma ReadRowKeeps(s: Sys, actor: nat)
    requires Invariant(s) && actor in s.actors && s.actors[actor].pc.Reading? && s.actors[actor].call.EnqueueCommunication?
    ensures var c := s.actors[actor].call; var t := DoReadRow(s, actor, c.slot);
            Invariant(t) && Onward(s, t)
  {
    hide OneRowPerSlot, IdOf, Onward;
    var c := s.actors[actor].call;
    var t := DoReadRow(s, actor, c.slot);
    SameIsOnward(s, t);
    SameStore(s, t);
    assert ActorOk(s, s.actors[actor]);
    var id := RowOf(s.jobs, c.slot);
    if s.jobs[id].state != Pending {
      assert IsJobOf(s, c, id) && IsSent(s, id);
      assert IsJobOf(t, c, id) && IsSent(t, id);
    }
    MoveKeeps(s, t, actor);
  }

  lemma FenceKeeps(s: Sys, actor: nat)
    requires Invariant(s) && actor in s.actors && s.actors[actor].pc.Fencing? && s.actors[actor].call.Enqueue?
    ensures var c := s.actors[actor].call; var t := DoFence(s, actor, c.slot, c.fence);
            Invariant(t) && Onward(s, t)
  {
    hide OneRowPerSlot, JobsSent, IdOf, Onward;
    var c := s.actors[actor].call;
    var t := DoFence(s, actor, c.slot, c.fence);
    SameIsOnward(s, t);
    SameStore(s, t);
    assert ActorOk(s, s.actors[actor]);
    MoveKeeps(s, t, actor);
  }

  lemma SendKeeps(s: Sys, actor: nat, id: JobId)
    requires Invariant(s) && actor in s.actors && s.actors[actor].pc == Sending(id)
    ensures var t := DoSend(s, actor, id, s.actors[actor].call.slot); Invariant(t) && Onward(s, t)
  {
    hide OneRowPerSlot, JobsSent, IdOf, Onward;
    var slot := s.actors[actor].call.slot;
    var t := DoSend(s, actor, id, slot);
    SameIsOnward(s, t);
    SameStore(s, t);
    assert ActorOk(s, s.actors[actor]);
    assert Message(id, slot.tenant, slot.topic) in t.sent;
    MoveKeeps(s, t, actor);
  }

  lemma MarkKeeps(s: Sys, actor: nat, id: JobId)
    requires Invariant(s) && actor in s.actors && s.actors[actor].pc == Marking(id)
    ensures var t := DoMark(s, actor, id); Invariant(t) && Onward(s, t)
  {
    hide OneRowPerSlot, JobsSent, IdOf, Onward;
    var t := DoMark(s, actor, id);
    assert ActorOk(s, s.actors[actor]);
    if s.jobs[id].state == Pending {
      ChangedRowKeeps(s, t, id, s.jobs[id].(state := Queued));
    } else {
      SameIsOnward(s, t);
      SameStore(s, t);
    }
    assert IsJobOf(t, s.actors[actor].call, id) && IsSent(t, id);
    MoveKeeps(s, t, actor);
  }

  lemma AdvanceKeeps(s: Sys, actor: nat)
    requires Invariant(s) && actor in s.actors
    ensures Invariant(DoAdvance(s, actor)) && Onward(s, DoAdvance(s, actor))
  {
    hide Invariant, Onward, DoStage, DoReadState, DoFence, DoUpsert, DoReadRow, DoSend, DoMark;
    var a := s.actors[actor];
    SameIsOnward(s, s);
    match a.pc
    case Starting => if a.call.Enqueue? { StageKeeps(s, actor); } else { UpsertKeeps(s, actor); }
    case Reading => if a.call.Enqueue? { ReadStateKeeps(s, actor); } else { ReadRowKeeps(s, actor); }
    case Fencing => if a.call.Enqueue? { FenceKeeps(s, actor); }
    case Sending(id) => SendKeeps(s, actor, id);
    case Marking(id) => MarkKeeps(s, actor, id);
    case Ended(_) =>
  }

  lemma TableStepKeeps(s: Sys, e: Event)
    requires Invariant(s) && (e.Insert? || e.Redispatch? || e.Claim? || e.Finish?)
    ensures Invariant(Step(s, e)) && Onward(s, Step(s, e))
  {
    hide OneRowPerSlot, JobsSent, IdOf, Onward, ActorOk;
    var t := Step(s, e);
    if t.jobs == s.jobs {
      SameIsOnward(s, t);
      SameStore(s, t);
    } else if e.Insert? {
      NewRowKeeps(s, t, e.id, e.slot, e.payload);
    } else {
      if e.Finish? {
        assert IsSent(s, e.id) by { NonPendingIsSent(s, e.id); }
      }
      ChangedRowKeeps(s, t, e.id, t.jobs[e.id]);
    }
    forall actor | actor in t.actors ensures ActorOk(t, t.actors[actor]) {
      OnwardKeepsActor(s, t, s.actors[actor]);
    }
  }

  lemma NonPendingIsSent(s: Sys, id: JobId)
    requires JobsSent(s) && id in s.jobs && s.jobs[id].state != Pending
    ensures IsSent(s, id)
  {
  }

  lemma StepKeeps(s: Sys, e: Event)
    requires Invariant(s)
    ensures Invariant(Step(s, e)) && Onward(s, Step(s, e))
  {
    hide OneRowPerSlot, JobsSent, Onward, DoAdvance;
    var t := Step(s, e);
    match e
    case Advance(actor) => if actor in s.actors { AdvanceKeeps(s, actor); } else { SameIsOnward(s, s); }
    case Begin(actor, _) =>
      SameIsOnward(s, t);
      SameStore(s, t);
      MoveKeeps(s, t, actor);
    case Crash(actor) =>
      SameIsOnward(s, t);
      SameStore(s, t);
      MoveKeeps(s, t, actor);
    case Decide(_, _) =>
      SameIsOnward(s, t);
      SameStore(s, t);
      forall actor | actor in t.actors ensures ActorOk(t, t.actors[actor]) {
        OnwardKeepsActor(s, t, s.actors[actor]);
      }
    case _ => TableStepKeeps(s, e);
  }

  lemma OnwardTrans(s: Sys, t: Sys, u: Sys)
    requires Onward(s, t) && Onward(t, u)
    ensures Onward(s, u)
  {
  }

  lemma {:induction false} RunKeeps(s: Sys, events: seq<Event>)
    requires Invariant(s)
    ensures Invariant(ExecFrom(s, events)) && Onward(s, ExecFrom(s, events))
  {
    hide Invariant, Step, Onward;
    if events == [] {
      SameIsOnward(s, s);
    } else {
      var before := ExecFrom(s, events[..|events| - 1]);
      RunKeeps(s, events[..|events| - 1]);
      StepKeeps(before, events[|events| - 1]);
      OnwardTrans(s, before, ExecFrom(s, events));
    }
  }

  // ---------------------------------------------------------------------------------------------
  // What the outbox guarantees
  // ---------------------------------------------------------------------------------------------

  lemma ReachableIsOk(events: seq<Event>)
    ensures Invariant(ExecFrom(INITIAL, events))
  {
    RunKeeps(INITIAL, events);
  }

  /** Whatever interleaves: one job per tenant, topic and key; a job left pending only after a message with its id was
      sent; and a call that ended with its job in hand, sent by it or found past pending, leaves no job unsent. */
  lemma NothingIsQueuedUnsent(events: seq<Event>)
    ensures var s := ExecFrom(INITIAL, events);
            && (forall a, b :: a in s.jobs && b in s.jobs && s.jobs[a].slot == s.jobs[b].slot ==> a == b)
            && (forall id :: id in s.jobs && s.jobs[id].state != Pending ==> IsSent(s, id))
            && (forall actor :: actor in s.actors && s.actors[actor].pc.Ended? ==>
                  match s.actors[actor].pc.outcome
                  case Sent => JobSent(s, s.actors[actor].call)
                  case Skipped(Some(_)) => JobSent(s, s.actors[actor].call)
                  case Skipped(None) => s.actors[actor].call.Enqueue? &&
                                        (s.actors[actor].call.fence.None? ==> Taken(s.jobs, s.actors[actor].call.slot))
                  case Fenced => s.actors[actor].call.Enqueue? && s.actors[actor].call.fence.Some?
                  case Refused => true)
  {
    hide ExecFrom, IsJobOf, IsSent;
    ReachableIsOk(events);
    var s := ExecFrom(INITIAL, events);
    forall actor | actor in s.actors ensures ActorOk(s, s.actors[actor]) {
    }
  }

  /** A job never returns to pending, keeps its slot, keeps its payload from the moment it is not pending, and is never
      moved once delivered, failed or given up. */
  lemma JobsOnlyMoveOn(events: seq<Event>, more: seq<Event>, id: JobId)
    requires id in ExecFrom(INITIAL, events).jobs
    ensures var s := ExecFrom(INITIAL, events);
            var t := ExecFrom(s, more);
            && id in t.jobs
            && t.jobs[id].slot == s.jobs[id].slot
            && (s.jobs[id].state != Pending ==> t.jobs[id].state != Pending && t.jobs[id].payload == s.jobs[id].payload)
            && (Final(s.jobs[id].state) ==> t.jobs[id] == s.jobs[id])
  {
    hide ExecFrom, Invariant;
    ReachableIsOk(events);
    RunKeeps(ExecFrom(INITIAL, events), more);
    assert Onward(ExecFrom(INITIAL, events), ExecFrom(ExecFrom(INITIAL, events), more));
  }

  /** An enqueuer's own step queues a pending job and changes no other state, whatever the consumer did meanwhile; it
      rewrites a payload only for a communication whose job is pending. */
  lemma EnqueuersOnlyQueuePending(s: Sys, actor: nat, id: JobId)
    requires id in s.jobs && actor in s.actors
    ensures var t := DoAdvance(s, actor);
            && id in t.jobs
            && (t.jobs[id].state != s.jobs[id].state ==>
                  s.jobs[id].state == Pending && t.jobs[id].state == Queued && s.actors[actor].pc == Marking(id))
            && (t.jobs[id].payload != s.jobs[id].payload ==>
                  s.jobs[id].state == Pending && s.actors[actor].call.EnqueueCommunication? &&
                  s.jobs[id].slot == s.actors[actor].call.slot && t.jobs[id].payload == s.actors[actor].call.payload)
  {
    hide IdOf, Holds;
  }

  /** A fenced call that has not got as far as sending. */
  predicate HeldBack(s: Sys, actor: nat, fence: Fence)
  {
    actor in s.actors && s.actors[actor].call.Enqueue? && s.actors[actor].call.fence == Some(fence) ==>
      var pc := s.actors[actor].pc;
      !pc.Sending? && !pc.Marking? && pc != Ended(Sent)
  }

  lemma HeldBackStep(s: Sys, e: Event, actor: nat, fence: Fence)
    requires HeldBack(s, actor, fence) && !Holds(s, Some(fence))
    ensures HeldBack(Step(s, e), actor, fence)
  {
    hide IdOf;
  }

  /** While its decision is never the current one, a fenced call neither sends a message nor marks a job, whether the job
      was staged before or not. */
  lemma {:induction false} FenceHoldsBack(events: seq<Event>, actor: nat, fence: Fence)
    requires forall i :: 0 <= i <= |events| ==> !Holds(ExecFrom(INITIAL, events[..i]), Some(fence))
    ensures HeldBack(ExecFrom(INITIAL, events), actor, fence)
  {
    hide Step, Holds, HeldBack;
    if events == [] {
      assert HeldBack(INITIAL, actor, fence) by { NobodyYet(actor, fence); }
    } else {
      var init := events[..|events| - 1];
      forall i | 0 <= i <= |init| ensures !Holds(ExecFrom(INITIAL, init[..i]), Some(fence)) {
        assert init[..i] == events[..i];
      }
      FenceHoldsBack(init, actor, fence);
      assert init[..|init|] == init;
      HeldBackStep(ExecFrom(INITIAL, init), events[|events| - 1], actor, fence);
    }
  }

  lemma NobodyYet(actor: nat, fence: Fence)
    ensures HeldBack(INITIAL, actor, fence)
  {
  }

  /** Nobody uses the communication variant. */
  ghost predicate OnlyEnqueues(s: Sys)
  {
    forall actor :: actor in s.actors ==> s.actors[actor].call.Enqueue?
  }

  ghost predicate OnlyEnqueueEvents(events: seq<Event>)
  {
    forall i :: 0 <= i < |events| && events[i].Begin? ==> events[i].call.Enqueue?
  }

  lemma EnqueueStep(s: Sys, e: Event)
    requires OnlyEnqueues(s) && (e.Begin? ==> e.call.Enqueue?)
    ensures OnlyEnqueues(Step(s, e))
    ensures forall id :: id in s.jobs ==> id in Step(s, e).jobs && Step(s, e).jobs[id].payload == s.jobs[id].payload
  {
    hide IdOf;
  }

  /** `enqueueCloudflareOutbox` alone never changes a payload, pending or not. */
  lemma {:induction false} EnqueueKeepsPayloads(s: Sys, events: seq<Event>)
    requires OnlyEnqueues(s) && OnlyEnqueueEvents(events)
    ensures var t := ExecFrom(s, events);
            OnlyEnqueues(t) && forall id :: id in s.jobs ==> id in t.jobs && t.jobs[id].payload == s.jobs[id].payload
  {
    hide Step, OnlyEnqueues;
    if events != [] {
      EnqueueKeepsPayloads(s, events[..|events| - 1]);
      EnqueueStep(ExecFrom(s, events[..|events| - 1]), events[|events| - 1]);
    }
  }

  /** Calls of these scopes, and rows of other writers that do not use such a call's job id. */
  ghost predicate EventOver(scopes: set<Scope>, e: Event)
  {
    && (e.Begin? ==> ScopeOf(e.call.slot) in scopes)
    && (e.Insert? ==> OwnId(scopes, e.id, e.slot))
  }

  ghost predicate Over(scopes: set<Scope>, events: seq<Event>)
  {
    forall i :: 0 <= i < |events| ==> EventOver(scopes, events[i])
  }

  /** The id of a row is no other call's job id. */
  ghost predicate OwnId(scopes: set<Scope>, id: JobId, slot: Slot)
  {
    forall p :: ScopeOf(p) in scopes && IdOf(p) == id ==> p == slot
  }

  /** Every message names the tenant and topic of its job, and no call was refused. */
  ghost predicate MessagesMatch(scopes: set<Scope>, s: Sys)
  {
    && (forall id :: id in s.jobs ==> OwnId(scopes, id, s.jobs[id].slot))
    && (forall actor :: actor in s.actors ==>
          ScopeOf(s.actors[actor].call.slot) in scopes && s.actors[actor].pc != Ended(Refused))
    && (forall m :: m in s.sent ==> m.id in s.jobs && m.tenant == s.jobs[m.id].slot.tenant && m.topic == s.jobs[m.id].slot.topic)
  }

  lemma JobIdIsOwn(scopes: set<Scope>, slot: Slot)
    requires PrefixFree(scopes) && ScopeOf(slot) in scopes
    ensures OwnId(scopes, IdOf(slot), slot)
  {
    hide IdOf, ScopeText;
    forall p | ScopeOf(p) in scopes && IdOf(p) == IdOf(slot) ensures p == slot {
      IdsAreDistinct(scopes, p, slot);
    }
  }

  lemma MessageStep(scopes: set<Scope>, s: Sys, e: Event)
    requires PrefixFree(scopes) && Invariant(s) && MessagesMatch(scopes, s) && EventOver(scopes, e)
    ensures MessagesMatch(scopes, Step(s, e))
  {
    hide IdOf, ScopeText, PrefixFree, OwnId, Invariant, Holds, DoAdvance;
    if e.Advance? && e.actor in s.actors {
      MessageAdvance(scopes, s, e.actor);
    }
  }

  lemma MessageAdvance(scopes: set<Scope>, s: Sys, actor: nat)
    requires PrefixFree(scopes) && Invariant(s) && MessagesMatch(scopes, s) && actor in s.actors
    ensures MessagesMatch(scopes, DoAdvance(s, actor))
  {
    hide IdOf, ScopeText, PrefixFree, OneRowPerSlot, JobsSent, Holds, Taken, DoStage, DoUpsert, DoSend, MessagesMatch, IsJobOf;
    var a := s.actors[actor];
    assert ActorOk(s, a);
    match a.pc
    case Starting => StageMessages(scopes, s, actor);
    case Sending(id) => SendMessage(scopes, s, actor, id);
    case _ => SameMessages(scopes, s, DoAdvance(s, actor));
  }

  /** Jobs keep their slots, callers their calls, and nothing is sent or refused. */
  lemma SameMessages(scopes: set<Scope>, s: Sys, t: Sys)
    requires MessagesMatch(scopes, s) && t.sent == s.sent && t.jobs.Keys == s.jobs.Keys && t.actors.Keys == s.actors.Keys
    requires forall id :: id in s.jobs ==> t.jobs[id].slot == s.jobs[id].slot
    requires forall actor :: actor in s.actors ==>
               t.actors[actor].call == s.actors[actor].call &&
               (t.actors[actor].pc == Ended(Refused) ==> s.actors[actor].pc == Ended(Refused))
    ensures MessagesMatch(scopes, t)
  {
    hide OwnId;
  }

  lemma StageMessages(scopes: set<Scope>, s: Sys, actor: nat)
    requires PrefixFree(scopes) && MessagesMatch(scopes, s) && actor in s.actors && s.actors[actor].pc.Starting?
    ensures MessagesMatch(scopes, DoAdvance(s, actor))
  {
    hide IdOf, ScopeText, PrefixFree, OwnId, Holds;
    var slot := s.actors[actor].call.slot;
    JobIdIsOwn(scopes, slot);
    if IdOf(slot) in s.jobs {
      OwnRow(scopes, s, slot);
    }
  }

  /** The row under a call's job id is the call's own. */
  lemma OwnRow(scopes: set<Scope>, s: Sys, slot: Slot)
    requires MessagesMatch(scopes, s) && ScopeOf(slot) in scopes && IdOf(slot) in s.jobs
    ensures s.jobs[IdOf(slot)].slot == slot && Taken(s.jobs, slot)
  {
    hide IdOf, ScopeText;
    assert OwnId(scopes, IdOf(slot), s.jobs[IdOf(slot)].slot);
  }

  lemma SendMessage(scopes: set<Scope>, s: Sys, actor: nat, id: JobId)
    requires MessagesMatch(scopes, s) && actor in s.actors && s.actors[actor].pc == Sending(id)
    requires IsJobOf(s, s.actors[actor].call, id)
    ensures MessagesMatch(scopes, DoSend(s, actor, id, s.actors[actor].call.slot))
  {
    hide IdOf, ScopeText, OwnId;
    if s.actors[actor].call.Enqueue? {
      OwnRow(scopes, s, s.actors[actor].call.slot);
    }
  }

  /** Over prefix-free scopes every message names its job's own tenant and topic, and no call is ever refused. */
  lemma {:induction false} MessagesNameTheirJob(scopes: set<Scope>, events: seq<Event>)
    requires PrefixFree(scopes) && Over(scopes, events)
    ensures MessagesMatch(scopes, ExecFrom(INITIAL, events))
  {
    hide Step, Invariant, EventOver, PrefixFree;
    if events != [] {
      MessagesNameTheirJob(scopes, events[..|events| - 1]);
      ReachableIsOk(events[..|events| - 1]);
      MessageStep(scopes, ExecFrom(INITIAL, events[..|events| - 1]), events[|events| - 1]);
    }
  }

  ghost predicate NoneRefused(s: Sys)
  {
    forall actor :: actor in s.actors ==> s.actors[actor].pc != Ended(Refused)
  }

  /** Two enqueuers of slots that share an id. */
  function CollidingRun(x: Slot, y: Slot): seq<Event>
  {
    [Begin(0, Enqueue(y, "", None)), Advance(0), Begin(1, Enqueue(x, "", None)), Advance(1)]
  }

  lemma ExecNext(events: seq<Event>, i: nat)
    requires i < |events|
    ensures ExecFrom(INITIAL, events[..i + 1]) == Step(ExecFrom(INITIAL, events[..i]), events[i])
  {
    assert events[..i + 1][..i] == events[..i];
  }

  /** The second of them is refused by the primary key. */
  lemma SecondIsRefused(x: Slot, y: Slot)
    requires x != y && IdOf(x) == IdOf(y)
    ensures var s := ExecFrom(INITIAL, CollidingRun(x, y)); 1 in s.actors && s.actors[1].pc == Ended(Refused)
  {
    hide IdOf, ExecFrom;
    var run := CollidingRun(x, y);
    assert ExecFrom(INITIAL, run[..0]) == INITIAL by { NothingYet(run); }
    ExecNext(run, 0);
    ExecNext(run, 1);
    ExecNext(run, 2);
    ExecNext(run, 3);
    assert run[..4] == run;
    FreshSlotIsStaged(y);
  }

  lemma FreshSlotIsStaged(y: Slot)
    ensures var s := Step(INITIAL, Begin(0, Enqueue(y, "", None)));
            Step(s, Advance(0)) == s.(jobs := map[IdOf(y) := Job(y, "", Pending)],
                                     actors := map[0 := Actor(Enqueue(y, "", None), Sending(IdOf(y)))])
  {
    hide IdOf;
  }

  lemma NothingYet(events: seq<Event>)
    ensures ExecFrom(INITIAL, events[..0]) == INITIAL
  {
  }

  /** No call is refused in any run if and only if no scope's text begins another's. */
  lemma RefusedExactlyByPrefixes(scopes: set<Scope>)
    ensures (forall events :: Over(scopes, events) ==> NoneRefused(ExecFrom(INITIAL, events))) <==> PrefixFree(scopes)
  {
    hide ExecFrom, ScopeText, IdOf;
    if PrefixFree(scopes) {
      forall events | Over(scopes, events) ensures NoneRefused(ExecFrom(INITIAL, events)) {
        MessagesNameTheirJob(scopes, events);
      }
    } else {
      var a, b :| a in scopes && b in scopes && a != b && ScopeText(a) <= ScopeText(b);
      var x, y := IdsCollide(a, b);
      SecondIsRefused(x, y);
      assert Over(scopes, CollidingRun(x, y)) && !NoneRefused(ExecFrom(INITIAL, CollidingRun(x, y)));
    }
  }
}
