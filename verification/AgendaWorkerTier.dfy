/** Worker-tier safety: puts, deletions, accepted writes and invalidations may interleave in any way, and a settled
    path still holds only what its newest write put there. */
module AgendaWorkerTier {
  import opened Basics
  import opened OrderedMap
  import opened AgendaCache
  import opened AgendaFeed

  /** Queued operations have increasing generations up to the path's, and only the head may have started. */
  ghost predicate Ordered(q: seq<Op>, g: int)
  {
    && (forall i :: 0 <= i < |q| ==> 0 < q[i].generation <= g)
    && (forall i, j :: 0 <= i < j < |q| ==> q[i].generation < q[j].generation)
    && (forall i :: 0 < i < |q| ==> q[i].phase == Queued)
  }

  lemma PoppedStaysOrdered(q: seq<Op>, g: int)
    requires q != [] && Ordered(q, g)
    ensures Ordered(q[1..], g)
  {
  }

  lemma StartedStaysOrdered(q: seq<Op>, phase: OpPhase, g: int)
    requires q != [] && Ordered(q, g)
    ensures Ordered([q[0].(phase := phase)] + q[1..], g)
  {
  }

  /** The newest write's put has not reached the worker cache yet. */
  predicate PutOutstanding(q: seq<Op>)
  {
    q != [] && (q[|q| - 1].phase == Queued || q[|q| - 1].phase == Putting)
  }

  /** Some step is still due that deletes the path from the worker cache. */
  predicate DeletionDue(s: Sys, p: Path)
  {
    || Deletions(s, p) > 0
    || (Queue(s, p) != [] && (Queue(s, p)[0].phase == Checking || Queue(s, p)[0].phase == Undoing))
  }

  ghost predicate PathInvariant(s: Sys, p: Path)
  {
    var q, g := Queue(s, p), Level(s.mem.generations, p);
    && Ordered(q, g)
    && g >= 0
    && (p !in s.last ==> g == 0 && q == [] && p !in s.worker)
    && (p in s.last && s.last[p].Wrote? ==>
          && s.last[p].generation == g
          && (q != [] ==> q[|q| - 1].generation == g && q[|q| - 1].entry == s.last[p].entry)
          && (PutOutstanding(q) || p !in s.worker || s.worker[p] == Stored(s.last[p].entry, g)))
    && (p in s.last && s.last[p].Invalidated? ==>
          && (forall i :: 0 <= i < |q| ==> q[i].generation < g)
          && (p in s.mem.bypassed && p in s.worker ==> DeletionDue(s, p)))
  }

  ghost predicate TierInvariant(s: Sys)
  {
    && s.mem.Valid() && |s.mem.entries.keys| <= MAX_ENTRIES
    && forall p :: PathInvariant(s, p)
  }

  /** Nothing about a path's worker-cache state differs. */
  ghost predicate SamePath(s: Sys, t: Sys, p: Path)
  {
    && Queue(t, p) == Queue(s, p) && Deletions(t, p) == Deletions(s, p)
    && Level(t.mem.generations, p) == Level(s.mem.generations, p)
    && (p in t.mem.bypassed ==> p in s.mem.bypassed)
    && (p in t.worker <==> p in s.worker) && (p in t.worker ==> t.worker[p] == s.worker[p])
    && (p in t.last <==> p in s.last) && (p in t.last ==> t.last[p] == s.last[p])
  }

  lemma SamePathKeepsInvariant(s: Sys, t: Sys, p: Path)
    requires PathInvariant(s, p) && SamePath(s, t, p)
    ensures PathInvariant(t, p)
  {
  }

  lemma StartHeadKeepsPath(s: Sys, p: Path)
    requires PathInvariant(s, p)
    ensures PathInvariant(StartHead(s, p), p)
  {
    hide Ordered;
    var q, g := Queue(s, p), Level(s.mem.generations, p);
    if q != [] {
      PoppedStaysOrdered(q, g);
      StartedStaysOrdered(q, Putting, g);
    }
  }

  lemma LandHeadKeepsPath(s: Sys, p: Path)
    requires PathInvariant(s, p)
    ensures PathInvariant(LandHead(s, p), p)
  {
    hide Ordered;
    var q, g := Queue(s, p), Level(s.mem.generations, p);
    if q != [] {
      StartedStaysOrdered(q, Checking, g);
    }
  }

  lemma CheckHeadKeepsPath(s: Sys, p: Path)
    requires PathInvariant(s, p)
    ensures PathInvariant(CheckHead(s, p), p)
  {
    hide Ordered, PathInvariant;
    var q, g := Queue(s, p), Level(s.mem.generations, p);
    if q != [] && q[0].phase == Checking {
      if g != q[0].generation && p in s.mem.bypassed {
        UndoingKeepsPath(s, p);
      } else {
        PoppingKeepsPath(s, p);
      }
    }
  }

  lemma UndoingKeepsPath(s: Sys, p: Path)
    requires PathInvariant(s, p) && Queue(s, p) != [] && Queue(s, p)[0].phase == Checking
    ensures PathInvariant(SetQueue(s, p, [Queue(s, p)[0].(phase := Undoing)] + Queue(s, p)[1..]), p)
  {
    hide Ordered;
    var q, g := Queue(s, p), Level(s.mem.generations, p);
    StartedStaysOrdered(q, Undoing, g);
  }

  lemma PoppingKeepsPath(s: Sys, p: Path)
    requires PathInvariant(s, p) && Queue(s, p) != [] && Queue(s, p)[0].phase == Checking
    requires Level(s.mem.generations, p) == Queue(s, p)[0].generation || p !in s.mem.bypassed
    ensures PathInvariant(SetQueue(s, p, Queue(s, p)[1..]), p)
  {
    hide Ordered;
    var q, g := Queue(s, p), Level(s.mem.generations, p);
    PoppedStaysOrdered(q, g);
  }

  lemma UndoHeadKeepsPath(s: Sys, p: Path)
    requires PathInvariant(s, p)
    ensures PathInvariant(UndoHead(s, p), p)
  {
    hide Ordered;
    var q, g := Queue(s, p), Level(s.mem.generations, p);
    if q != [] {
      PoppedStaysOrdered(q, g);
    }
  }

  lemma DeletionsKeepPath(s: Sys, p: Path)
    requires PathInvariant(s, p)
    ensures PathInvariant(LandDeletion(s, p), p) && PathInvariant(Evict(s, p), p)
  {
    hide Ordered;
    assert Queue(LandDeletion(s, p), p) == Queue(s, p) && Queue(Evict(s, p), p) == Queue(s, p);
  }

  lemma QueueStepElsewhere(s: Sys, p: Path, t: Sys, o: Path)
    requires IsQueueStep(s, p, t) && o != p
    ensures SamePath(s, t, o)
  {
    hide StartHead, LandHead, CheckHead, UndoHead, LandDeletion, Evict, SamePath;
    StartElsewhere(s, p, o);
    LandElsewhere(s, p, o);
    CheckElsewhere(s, p, o);
    UndoElsewhere(s, p, o);
    DeletionElsewhere(s, p, o);
  }

  lemma SetQueueElsewhere(s: Sys, worker: map<Path, Stored>, p: Path, q: seq<Op>, o: Path)
    requires o != p && (o in worker <==> o in s.worker) && (o in worker ==> worker[o] == s.worker[o])
    ensures SamePath(s, SetQueue(s.(worker := worker), p, q), o)
  {
  }

  lemma SameAsItself(s: Sys, p: Path)
    ensures SamePath(s, s, p)
  {
  }

  lemma StartElsewhere(s: Sys, p: Path, o: Path)
    requires o != p
    ensures SamePath(s, StartHead(s, p), o)
  {
    hide SetQueue, SamePath;
    SameAsItself(s, o);
    var q := Queue(s, p);
    if q != [] {
      SetQueueElsewhere(s, s.worker, p, [q[0].(phase := Putting)] + q[1..], o);
      SetQueueElsewhere(s, s.worker, p, q[1..], o);
    }
  }

  lemma LandElsewhere(s: Sys, p: Path, o: Path)
    requires o != p
    ensures SamePath(s, LandHead(s, p), o)
  {
    hide SetQueue, SamePath;
    SameAsItself(s, o);
    var q := Queue(s, p);
    if q != [] {
      var landed := s.worker[p := Stored(q[0].entry, q[0].generation)];
      SetQueueElsewhere(s, landed, p, [q[0].(phase := Checking)] + q[1..], o);
    }
  }

  lemma CheckElsewhere(s: Sys, p: Path, o: Path)
    requires o != p
    ensures SamePath(s, CheckHead(s, p), o)
  {
    hide SetQueue, SamePath;
    SameAsItself(s, o);
    var q := Queue(s, p);
    if q != [] {
      SetQueueElsewhere(s, s.worker, p, [q[0].(phase := Undoing)] + q[1..], o);
      SetQueueElsewhere(s, s.worker, p, q[1..], o);
    }
  }

  lemma UndoElsewhere(s: Sys, p: Path, o: Path)
    requires o != p
    ensures SamePath(s, UndoHead(s, p), o)
  {
    hide SetQueue, SamePath;
    SameAsItself(s, o);
    var q := Queue(s, p);
    if q != [] {
      var undone := s.worker - {p};
      SetQueueElsewhere(s, undone, p, q[1..], o);
    }
  }

  lemma DeletionElsewhere(s: Sys, p: Path, o: Path)
    requires o != p
    ensures SamePath(s, LandDeletion(s, p), o) && SamePath(s, Evict(s, p), o)
  {
    assert Queue(LandDeletion(s, p), o) == Queue(s, o) && Queue(Evict(s, p), o) == Queue(s, o);
  }

  lemma QueueStepKeepsTier(s: Sys, p: Path, t: Sys)
    requires TierInvariant(s) && IsQueueStep(s, p, t)
    ensures TierInvariant(t)
  {
    hide StartHead, LandHead, CheckHead, UndoHead, LandDeletion, Evict, PathInvariant, SamePath;
    StartHeadKeepsPath(s, p);
    LandHeadKeepsPath(s, p);
    CheckHeadKeepsPath(s, p);
    UndoHeadKeepsPath(s, p);
    DeletionsKeepPath(s, p);
    forall o | o != p ensures PathInvariant(t, o) {
      QueueStepElsewhere(s, p, t, o);
      SamePathKeepsInvariant(s, t, o);
    }
  }

  /** `t` is `s` after an accepted write of `e` to `p`. */
  ghost predicate Enqueued(s: Sys, t: Sys, p: Path, e: Entry)
  {
    var g := Level(s.mem.generations, p) + 1;
    && t == s.(mem := t.mem, queues := s.queues[p := Queue(s, p) + [Op(e, g, Queued)]], last := s.last[p := Wrote(e, g)])
    && t.mem.Valid() && |t.mem.entries.keys| <= MAX_ENTRIES
    && t.mem.generations == s.mem.generations[p := g]
    && t.mem.bypassed == Without(s.mem.bypassed, p)
  }

  lemma AcceptedWriteEnqueues(s: Sys, p: Path, e: Entry, now: int)
    requires s.mem.Valid() && |s.mem.entries.keys| <= MAX_ENTRIES && Accepts(s.mem, p, e)
    ensures Enqueued(s, StoreWrite(s, p, e, now), p, e)
  {
    hide Write;
    WriteFacts(s.mem, p, e, now);
  }

  lemma EnqueuedKeepsPath(s: Sys, t: Sys, p: Path, e: Entry)
    requires PathInvariant(s, p) && Enqueued(s, t, p, e)
    ensures PathInvariant(t, p)
  {
    hide Ordered, Without, Distinct;
    AppendedStaysOrdered(Queue(s, p), Level(s.mem.generations, p), e);
  }

  lemma AppendedStaysOrdered(q: seq<Op>, g: int, e: Entry)
    requires Ordered(q, g) && g >= 0
    ensures Ordered(q + [Op(e, g + 1, Queued)], g + 1)
  {
  }

  /** What the worker tier needs to know of a memory write. */
  lemma WriteFacts(m: Memory, p: Path, e: Entry, now: int)
    requires m.Valid() && |m.entries.keys| <= MAX_ENTRIES
    ensures var (r, generation) := Write(m, p, e, now);
            && |r.entries.keys| <= MAX_ENTRIES
            && (!Accepts(m, p, e) ==> generation == None && r == m)
            && (Accepts(m, p, e) ==>
                  && generation == Some(Level(m.generations, p) + 1)
                  && r.generations == m.generations[p := Level(m.generations, p) + 1]
                  && r.bypassed == Without(m.bypassed, p))
  {
    hide AgendaCache.Remember;
    if Accepts(m, p, e) {
      RememberKeepsNewEntry(Accepted(m, p, e), p, e, now);
    }
  }

  lemma WriteKeepsTier(s: Sys, p: Path, e: Entry, now: int)
    requires TierInvariant(s)
    ensures TierInvariant(StoreWrite(s, p, e, now))
  {
    hide PathInvariant, StoreWrite, Without, Distinct;
    var t := StoreWrite(s, p, e, now);
    if Accepts(s.mem, p, e) {
      AcceptedWriteEnqueues(s, p, e, now);
      EnqueuedKeepsPath(s, t, p, e);
      forall o | o != p ensures PathInvariant(t, o) {
        assert SamePath(s, t, o);
        SamePathKeepsInvariant(s, t, o);
      }
    } else {
      RejectedWriteChangesNothing(s, p, e, now);
    }
  }

  lemma RejectedWriteChangesNothing(s: Sys, p: Path, e: Entry, now: int)
    requires s.mem.Valid() && !Accepts(s.mem, p, e)
    ensures StoreWrite(s, p, e, now) == s
  {
  }

  /** What the worker tier needs to know of an invalidation. */
  ghost predicate Marked(s: Sys, t: Sys, paths: seq<Path>)
  {
    && t.mem.Valid() && |t.mem.entries.keys| <= |s.mem.entries.keys|
    && t.queues == s.queues && t.worker == s.worker && t.requests == s.requests
    && (forall p :: Level(t.mem.generations, p) == Level(s.mem.generations, p) + if p in paths then 1 else 0)
    && (forall p :: Deletions(t, p) == Deletions(s, p) + if p in paths then 1 else 0)
    && (forall p :: p in t.mem.bypassed ==> p in s.mem.bypassed || p in paths)
    && (forall p :: p in paths ==> p in t.last && t.last[p] == Invalidated)
    && (forall p :: p !in paths ==> (p in t.last <==> p in s.last) && (p in t.last ==> t.last[p] == s.last[p]))
  }

  lemma InvalidationMarks(s: Sys, eventId: string, candidates: seq<Path>, floor: int)
    requires s.mem.Valid()
    ensures Marked(s, StepInvalidation(s, eventId, candidates, floor), CoveredPaths(s.mem, eventId, candidates))
  {
    hide CoveredPaths, Invalidate;
    InvalidateMarks(s.mem, eventId, candidates, floor);
    InvalidateOnlyForgets(s.mem, eventId, candidates, floor);
  }

  lemma MarkingKeepsPath(s: Sys, t: Sys, paths: seq<Path>, p: Path)
    requires PathInvariant(s, p) && Marked(s, t, paths)
    ensures PathInvariant(t, p)
  {
    hide Ordered;
    if p in paths {
      OrderedUpTo(Queue(s, p), Level(s.mem.generations, p));
    } else {
      SamePathKeepsInvariant(s, t, p);
    }
  }

  lemma OrderedUpTo(q: seq<Op>, g: int)
    requires Ordered(q, g)
    ensures Ordered(q, g + 1) && forall i :: 0 <= i < |q| ==> q[i].generation < g + 1
  {
  }

  lemma SameEverywhereKeepsTier(s: Sys, t: Sys)
    requires TierInvariant(s) && t.mem.Valid() && |t.mem.entries.keys| <= |s.mem.entries.keys|
    requires forall p :: SamePath(s, t, p)
    ensures TierInvariant(t)
  {
    hide PathInvariant, SamePath;
    forall p ensures PathInvariant(t, p) {
      SamePathKeepsInvariant(s, t, p);
    }
  }

  lemma BeginKeepsTier(site: Site, s: Sys, id: nat, p: Path, m: Manifest, cacheable: bool)
    requires TierInvariant(s)
    ensures TierInvariant(BeginRequest(site, s, id, p, m, cacheable))
  {
    hide PathInvariant;
    SameEverywhereKeepsTier(s, BeginRequest(site, s, id, p, m, cacheable));
  }

  lemma MatchKeepsTier(s: Sys, id: nat)
    requires TierInvariant(s)
    ensures TierInvariant(MatchWorker(s, id))
  {
    hide PathInvariant;
    SameEverywhereKeepsTier(s, MatchWorker(s, id));
  }

  lemma ReadKeepsTier(s: Sys, id: nat, now: int)
    requires TierInvariant(s)
    ensures TierInvariant(ReadCache(s, id, now))
  {
    hide ReadMemory, PathInvariant;
    if id in s.requests && s.requests[id].phase == Reading {
      ReadOnlyForgets(s.mem, s.requests[id].path, s.requests[id].manifest, now);
      SameEverywhereKeepsTier(s, ReadCache(s, id, now));
    }
  }

  lemma DropKeepsTier(s: Sys, id: nat)
    requires TierInvariant(s)
    ensures TierInvariant(DropStale(s, id))
  {
    hide PathInvariant;
    if id in s.requests && s.requests[id].phase == Deleting {
      var evicted := Evict(s, s.requests[id].path);
      QueueStepKeepsTier(s, s.requests[id].path, evicted);
      SameEverywhereKeepsTier(evicted, DropStale(s, id));
    }
  }

  lemma RenderKeepsTier(site: Site, s: Sys, id: nat, now: int)
    requires TierInvariant(s)
    ensures TierInvariant(RenderFeed(site, s, id, now))
  {
    hide PathInvariant, StoreWrite;
    if id in s.requests && s.requests[id].phase == Rendering {
      var q := s.requests[id];
      var answered := SetPhase(s, id, Done(Fresh(site, q.path, q.manifest)));
      SameEverywhereKeepsTier(s, answered);
      var result := site.render(q.path, q.manifest);
      if result.Some? {
        WriteKeepsTier(answered, q.path, EntryFor(site, q.path, q.manifest, result.value, now), now);
      }
    }
  }

  lemma InvalidationKeepsTier(s: Sys, eventId: string, candidates: seq<Path>, floor: int)
    requires TierInvariant(s)
    ensures TierInvariant(StepInvalidation(s, eventId, candidates, floor))
  {
    hide StepInvalidation, PathInvariant, CoveredPaths;
    InvalidationMarks(s, eventId, candidates, floor);
    var t := StepInvalidation(s, eventId, candidates, floor);
    forall p ensures PathInvariant(t, p) {
      MarkingKeepsPath(s, t, CoveredPaths(s.mem, eventId, candidates), p);
    }
  }

  lemma StepKeepsTier(site: Site, s: Sys, e: Event)
    requires TierInvariant(s)
    ensures TierInvariant(Step(site, s, e))
  {
    hide BeginRequest, MatchWorker, ReadCache, DropStale, RenderFeed, StepInvalidation, PathInvariant;
    hide StartHead, LandHead, CheckHead, UndoHead, LandDeletion, Evict;
    match e
    case Begin(id, p, m, cacheable) => BeginKeepsTier(site, s, id, p, m, cacheable);
    case Match(id) => MatchKeepsTier(s, id);
    case Read(id, now) => ReadKeepsTier(s, id, now);
    case DeleteStale(id) => DropKeepsTier(s, id);
    case Render(id, now) => RenderKeepsTier(site, s, id, now);
    case Invalidation(eventId, candidates, floor) => InvalidationKeepsTier(s, eventId, candidates, floor);
    case _ => QueueStepKeepsTier(s, e.path, Step(site, s, e));
  }

  lemma {:induction false} TierInvariantHolds(site: Site, events: seq<Event>)
    ensures TierInvariant(Exec(site, events))
  {
    hide Step, PathInvariant;
    if events != [] {
      TierInvariantHolds(site, events[..|events| - 1]);
      StepKeepsTier(site, Exec(site, events[..|events| - 1]), events[|events| - 1]);
    } else {
      InitiallyInTier();
    }
  }

  lemma InitiallyInTier()
    ensures TierInvariant(INITIAL)
  {
  }

  /** The entry that step `e` writes to path `p`, if it is a render whose write is accepted. */
  ghost function AcceptedWrite(site: Site, s: Sys, e: Event, p: Path): Option<Entry>
  {
    if e.Render? && e.id in s.requests && s.requests[e.id].phase == Rendering
       && s.requests[e.id].cacheable && s.requests[e.id].path == p
       && site.render(p, s.requests[e.id].manifest).Some? then
      var m := s.requests[e.id].manifest;
      var entry := EntryFor(site, p, m, site.render(p, m).value, e.now);
      if Accepts(s.mem, p, entry) then Some(entry) else None
    else None
  }

  ghost predicate Covers(s: Sys, e: Event, p: Path)
    requires s.mem.Valid()
  {
    e.Invalidation? && p in CoveredPaths(s.mem, e.eventId, e.candidates)
  }

  ghost predicate Changes(site: Site, s: Sys, e: Event, p: Path)
    requires s.mem.Valid()
  {
    AcceptedWrite(site, s, e, p).Some? || Covers(s, e, p)
  }

  lemma RenderUpdatesLast(site: Site, s: Sys, id: nat, now: int, p: Path)
    requires TierInvariant(s)
    ensures var t, w := RenderFeed(site, s, id, now), AcceptedWrite(site, s, Render(id, now), p);
            && (w.Some? ==> p in t.last && t.last[p] == Wrote(w.value, Level(t.mem.generations, p)))
            && (w.None? ==> (p in t.last <==> p in s.last) && (p in t.last ==> t.last[p] == s.last[p])
                            && (p in s.mem.bypassed ==> p in t.mem.bypassed))
  {
    hide PathInvariant, Write;
    if id in s.requests && s.requests[id].phase == Rendering {
      var q := s.requests[id];
      var result := site.render(q.path, q.manifest);
      if result.Some? && q.cacheable {
        var entry := EntryFor(site, q.path, q.manifest, result.value, now);
        WriteFacts(s.mem, q.path, entry, now);
      }
    }
  }

  lemma ReadKeepsLast(s: Sys, id: nat, now: int)
    requires s.mem.Valid()
    ensures ReadCache(s, id, now).last == s.last && ReadCache(s, id, now).mem.bypassed == s.mem.bypassed
  {
    hide ReadMemory;
    if id in s.requests {
      ReadOnlyForgets(s.mem, s.requests[id].path, s.requests[id].manifest, now);
    }
  }

  lemma OtherStepsKeepLast(site: Site, s: Sys, e: Event)
    requires s.mem.Valid() && !e.Render? && !e.Invalidation?
    ensures Step(site, s, e).last == s.last && Step(site, s, e).mem.bypassed == s.mem.bypassed
  {
    hide StartHead, LandHead, CheckHead, UndoHead, LandDeletion, Evict, ReadCache;
    if e.Read? {
      ReadKeepsLast(s, e.id, e.now);
    }
  }

  /** The history variable is right: it names the newest accepted write or invalidation. */
  lemma StepUpdatesLast(site: Site, s: Sys, e: Event, p: Path)
    requires TierInvariant(s)
    ensures var t := Step(site, s, e);
            && (AcceptedWrite(site, s, e, p).Some? ==>
                  p in t.last && t.last[p].Wrote? && t.last[p].entry == AcceptedWrite(site, s, e, p).value)
            && (Covers(s, e, p) ==> p in t.last && t.last[p] == Invalidated)
            && (!Changes(site, s, e, p) ==>
                  (p in t.last <==> p in s.last) && (p in t.last ==> t.last[p] == s.last[p]))
  {
    hide PathInvariant, CoveredPaths;
    if e.Render? {
      hide RenderFeed;
      RenderUpdatesLast(site, s, e.id, e.now, p);
    } else if e.Invalidation? {
      hide StepInvalidation;
      InvalidationMarks(s, e.eventId, e.candidates, e.floor);
    } else {
      hide Step;
      OtherStepsKeepLast(site, s, e);
    }
  }

  /** The step of a run that last changed a path. */
  lemma {:induction false} NewestChange(site: Site, events: seq<Event>, p: Path) returns (k: nat)
    requires p in Exec(site, events).last
    ensures k < |events|
    ensures Changes(site, Exec(site, events[..k]), events[k], p)
    ensures Exec(site, events).last[p].Wrote? ==>
              AcceptedWrite(site, Exec(site, events[..k]), events[k], p) == Some(Exec(site, events).last[p].entry)
    ensures forall j :: k < j < |events| ==> !Changes(site, Exec(site, events[..j]), events[j], p)
  {
    hide Changes, AcceptedWrite, Covers, Step, TierInvariant;
    assert events != [];
    var n := |events| - 1;
    var before := Exec(site, events[..n]);
    TierInvariantHolds(site, events[..n]);
    assert Changes(site, before, events[n], p) <==>
           AcceptedWrite(site, before, events[n], p).Some? || Covers(before, events[n], p) by {
      ChangesMeans(site, before, events[n], p);
    }
    StepUpdatesLast(site, before, events[n], p);
    if Changes(site, before, events[n], p) {
      k := n;
    } else {
      k := NewestChange(site, events[..n], p);
      assert events[..n][..k] == events[..k];
      forall j | k < j < |events| ensures !Changes(site, Exec(site, events[..j]), events[j], p) {
        if j < n {
          assert events[..n][..j] == events[..j];
        }
      }
    }
  }

  lemma ChangesMeans(site: Site, s: Sys, e: Event, p: Path)
    requires s.mem.Valid()
    ensures Changes(site, s, e, p) <==> AcceptedWrite(site, s, e, p).Some? || Covers(s, e, p)
  {
  }

  ghost predicate Settled(s: Sys, p: Path)
  {
    Queue(s, p) == [] && Deletions(s, p) == 0
  }

  /** The bypass set takes every path the step covers without dropping a mark. */
  ghost predicate BypassFits(s: Sys, e: Event)
    requires s.mem.Valid()
  {
    e.Invalidation? ==>
      |AddAll(s.mem.bypassed, CoveredPaths(s.mem, e.eventId, e.candidates))| <= MAX_BYPASS_ENTRIES
  }

  lemma BypassAllAddsMarks(m: Memory, ps: seq<Path>, floor: int)
    ensures BypassAll(m, ps, floor).bypassed == AddAll(m.bypassed, ps)
    decreases |ps|
  {
    if ps != [] {
      BypassAllAddsMarks(BypassPath(m, ps[0], floor), ps[1..], floor);
    }
  }

  ghost predicate MarksKept(s: Sys)
  {
    forall p :: p in s.last && s.last[p].Invalidated? ==> p in s.mem.bypassed
  }

  lemma InvalidationKeepsMarks(s: Sys, eventId: string, candidates: seq<Path>, floor: int)
    requires s.mem.Valid() && MarksKept(s) && BypassFits(s, Invalidation(eventId, candidates, floor))
    ensures MarksKept(StepInvalidation(s, eventId, candidates, floor))
  {
    hide CoveredPaths, BypassAll, Retain;
    var paths := CoveredPaths(s.mem, eventId, candidates);
    var forgotten := s.mem.(entries := Retain(s.mem.entries, NotOwnedBy(eventId)),
                            index := Retain(Retain(s.mem.index, NotOwnedIn(s.mem.entries.m, eventId)),
                                            IndexNotOwnedBy(eventId)));
    BypassAllAddsMarks(forgotten, paths, floor);
    assert StepInvalidation(s, eventId, candidates, floor).mem.bypassed == AddAll(s.mem.bypassed, paths);
  }

  lemma StepKeepsMarks(site: Site, s: Sys, e: Event)
    requires TierInvariant(s) && MarksKept(s) && BypassFits(s, e)
    ensures MarksKept(Step(site, s, e))
  {
    hide PathInvariant, StepInvalidation, RenderFeed;
    if e.Render? {
      forall p { RenderUpdatesLast(site, s, e.id, e.now, p); }
    } else if e.Invalidation? {
      InvalidationKeepsMarks(s, e.eventId, e.candidates, e.floor);
    } else {
      hide Step;
      OtherStepsKeepLast(site, s, e);
    }
  }

  lemma {:induction false} MarksKeptHolds(site: Site, events: seq<Event>)
    requires forall i :: 0 <= i < |events| ==> BypassFits(Exec(site, events[..i]), events[i])
    ensures MarksKept(Exec(site, events))
  {
    hide BypassFits, MarksKept, Step, TierInvariant;
    if events != [] {
      var n := |events| - 1;
      forall i | 0 <= i < n ensures BypassFits(Exec(site, events[..n][..i]), events[..n][i]) {
        assert events[..n][..i] == events[..i];
      }
      MarksKeptHolds(site, events[..n]);
      TierInvariantHolds(site, events[..n]);
      StepKeepsMarks(site, Exec(site, events[..n]), events[n]);
    } else {
      NoMarksInitially();
    }
  }

  lemma NoMarksInitially()
    ensures MarksKept(INITIAL)
  {
  }

  /** Once every operation on a path has settled, a response the worker cache holds for it is the one the newest
      accepted write put there, unless the path's newest change is an invalidation whose mark was evicted. */
  lemma SettledWorkerHoldsNewestWrite(site: Site, events: seq<Event>, p: Path)
    requires Settled(Exec(site, events), p) && p in Exec(site, events).worker
    ensures var s := Exec(site, events);
            && p in s.last
            && (s.last[p] == Wrote(s.worker[p].entry, s.worker[p].generation)
                || (s.last[p].Invalidated? && p !in s.mem.bypassed))
  {
    TierInvariantHolds(site, events);
    assert PathInvariant(Exec(site, events), p);
  }

  /** Worker-tier safety, for every interleaving of requests, puts, deletions and invalidations in which the bypass
      set never overflows: a settled path's cached response was written by some step `k`, and no accepted write to
      the path and no invalidation covering it came after. */
  lemma WorkerTierSafety(site: Site, events: seq<Event>, p: Path) returns (k: nat)
    requires forall i :: 0 <= i < |events| ==> BypassFits(Exec(site, events[..i]), events[i])
    requires Settled(Exec(site, events), p) && p in Exec(site, events).worker
    ensures k < |events|
    ensures AcceptedWrite(site, Exec(site, events[..k]), events[k], p) == Some(Exec(site, events).worker[p].entry)
    ensures forall j :: k < j < |events| ==> !Changes(site, Exec(site, events[..j]), events[j], p)
  {
    hide Changes, AcceptedWrite, Step, BypassFits;
    SettledWorkerHoldsNewestWrite(site, events, p);
    MarksKeptHolds(site, events);
    k := NewestChange(site, events, p);
  }
}
