/** The cached feed refines the uncached feed: every response in every run is the one a fresh render would give,
    exactly when the cache can tell apart the manifests served for a path. */
module AgendaFreshness {
  import opened Basics
  import opened OrderedMap
  import opened AgendaCache
  import opened AgendaFeed

  ghost predicate Source(site: Site, p: Path, m: Manifest, e: Entry)
  {
    && site.served(p, m) && site.render(p, m).Some?
    && var r := site.render(p, m).value;
       Serve(e) == Fresh(site, p, m) && e.revisionNumber == r.revisionNumber
       && e.programRevision == m.revision && e.cacheRevision == m.cacheRevision
  }

  ghost predicate Sourced(site: Site, p: Path, e: Entry)
  {
    exists m :: Source(site, p, m, e)
  }

  ghost predicate MemorySourced(site: Site, m: Memory)
  {
    forall p :: p in m.entries.m ==> Sourced(site, p, m.entries.m[p])
  }

  ghost predicate WorkerSourced(site: Site, s: Sys)
  {
    && (forall p :: p in s.worker ==> Sourced(site, p, s.worker[p].entry))
    && (forall p, i :: p in s.queues && 0 <= i < |s.queues[p]| ==> Sourced(site, p, s.queues[p][i].entry))
  }

  ghost predicate AllFresh(site: Site, s: Sys)
  {
    forall id :: id in s.requests && s.requests[id].phase.Done? ==>
      s.requests[id].phase.response == Fresh(site, s.requests[id].path, s.requests[id].manifest)
  }

  ghost predicate FeedInvariant(site: Site, s: Sys)
  {
    && Invariant(s.mem, site.owner) && RequestsServed(site, s)
    && MemorySourced(site, s.mem) && WorkerSourced(site, s) && AllFresh(site, s)
  }

  lemma MatchingSourceIsFresh(site: Site, p: Path, e: Entry, w: Manifest)
    requires Identified(site) && Sourced(site, p, e) && site.served(p, w) && Matches(e, w)
    ensures Serve(e) == Fresh(site, p, w)
  {
    var m :| Source(site, p, m, e);
    assert Confusable(site, p, m, w);
  }

  lemma WriteStaysSourced(site: Site, s: Sys, p: Path, e: Entry, now: int)
    requires Invariant(s.mem, site.owner) && Sourced(site, p, e) && e.eventId == site.owner(p)
    requires MemorySourced(site, s.mem) && WorkerSourced(site, s)
    ensures var t := StoreWrite(s, p, e, now);
            MemorySourced(site, t.mem) && WorkerSourced(site, t) && t.requests == s.requests
  {
    hide Write, Sourced, EntryOk;
    WriteKeepsInvariant(s.mem, p, e, now, site.owner);
    var t := StoreWrite(s, p, e, now);
    if Accepts(s.mem, p, e) {
      QueuedStaysSourced(site, s, t, p, Op(e, Level(s.mem.generations, p) + 1, Queued));
    }
  }

  lemma QueuedStaysSourced(site: Site, s: Sys, t: Sys, p: Path, op: Op)
    requires WorkerSourced(site, s) && Sourced(site, p, op.entry)
    requires t.worker == s.worker && t.queues == s.queues[p := Queue(s, p) + [op]]
    ensures WorkerSourced(site, t)
  {
    hide Sourced;
  }

  lemma RenderStaysFresh(site: Site, s: Sys, id: nat, now: int)
    requires FeedInvariant(site, s) && OwnedRenderings(site)
    ensures FeedInvariant(site, RenderFeed(site, s, id, now))
  {
    hide StoreWrite, Sourced, EntryOk;
    RenderKeepsMemory(site, s, id, now);
    if id in s.requests && s.requests[id].phase == Rendering {
      var q := s.requests[id];
      var result := site.render(q.path, q.manifest);
      var answered := SetPhase(s, id, Done(Fresh(site, q.path, q.manifest)));
      if result.Some? {
        var entry := EntryFor(site, q.path, q.manifest, result.value, now);
        RenderedIsSourced(site, q.path, q.manifest, now);
        WriteStaysSourced(site, answered, q.path, entry, now);
      }
    }
  }

  lemma RenderedIsSourced(site: Site, p: Path, m: Manifest, now: int)
    requires site.served(p, m) && site.render(p, m).Some?
    ensures Sourced(site, p, EntryFor(site, p, m, site.render(p, m).value, now))
  {
    assert Source(site, p, m, EntryFor(site, p, m, site.render(p, m).value, now));
  }

  lemma ReadStaysFresh(site: Site, s: Sys, id: nat, now: int)
    requires FeedInvariant(site, s) && Identified(site)
    ensures FeedInvariant(site, ReadCache(s, id, now))
  {
    hide ReadMemory, Sourced, EntryOk, Identified;
    ReadKeepsMemory(site, s, id, now);
    if id in s.requests && s.requests[id].phase == Reading {
      var q := s.requests[id];
      var (mem, hit) := ReadMemory(s.mem, q.path, q.manifest, now);
      ReadOnlyForgets(s.mem, q.path, q.manifest, now);
      if hit.Some? {
        MatchingSourceIsFresh(site, q.path, hit.value, q.manifest);
      }
    }
  }

  lemma MatchStaysFresh(site: Site, s: Sys, id: nat)
    requires FeedInvariant(site, s) && Identified(site)
    ensures FeedInvariant(site, MatchWorker(s, id))
  {
    hide Sourced, Invariant, Identified;
    if id in s.requests && s.requests[id].phase == Matching {
      var q := s.requests[id];
      if q.path in s.worker && Matches(s.worker[q.path].entry, q.manifest) {
        MatchingSourceIsFresh(site, q.path, s.worker[q.path].entry, q.manifest);
      }
    }
  }

  lemma BeginStaysFresh(site: Site, s: Sys, id: nat, p: Path, m: Manifest, cacheable: bool)
    requires FeedInvariant(site, s)
    ensures FeedInvariant(site, BeginRequest(site, s, id, p, m, cacheable))
  {
    hide Sourced, Invariant;
  }

  lemma DropStaysFresh(site: Site, s: Sys, id: nat)
    requires FeedInvariant(site, s)
    ensures FeedInvariant(site, DropStale(s, id))
  {
    hide Sourced, Invariant;
  }

  ghost predicate OpsSourced(site: Site, p: Path, q: seq<Op>)
  {
    forall i :: 0 <= i < |q| ==> Sourced(site, p, q[i].entry)
  }

  lemma SetQueueStaysSourced(site: Site, s: Sys, p: Path, q: seq<Op>)
    requires WorkerSourced(site, s) && OpsSourced(site, p, q)
    ensures WorkerSourced(site, SetQueue(s, p, q))
  {
    hide Sourced;
  }

  lemma QueueStepsStaySourced(site: Site, s: Sys, p: Path)
    requires WorkerSourced(site, s)
    ensures WorkerSourced(site, StartHead(s, p)) && WorkerSourced(site, LandHead(s, p))
    ensures WorkerSourced(site, CheckHead(s, p)) && WorkerSourced(site, UndoHead(s, p))
  {
    hide Sourced;
    var q := Queue(s, p);
    if q != [] {
      assert OpsSourced(site, p, q) && OpsSourced(site, p, q[1..]);
      SetQueueStaysSourced(site, s, p, q[1..]);
      assert OpsSourced(site, p, [q[0].(phase := Putting)] + q[1..]);
      SetQueueStaysSourced(site, s, p, [q[0].(phase := Putting)] + q[1..]);
      var landed := s.(worker := s.worker[p := Stored(q[0].entry, q[0].generation)]);
      assert OpsSourced(site, p, [q[0].(phase := Checking)] + q[1..]);
      SetQueueStaysSourced(site, landed, p, [q[0].(phase := Checking)] + q[1..]);
      assert OpsSourced(site, p, [q[0].(phase := Undoing)] + q[1..]);
      SetQueueStaysSourced(site, s, p, [q[0].(phase := Undoing)] + q[1..]);
      SetQueueStaysSourced(site, s.(worker := s.worker - {p}), p, q[1..]);
    }
  }

  lemma DeletionsStaySourced(site: Site, s: Sys, p: Path)
    requires WorkerSourced(site, s)
    ensures WorkerSourced(site, LandDeletion(s, p)) && WorkerSourced(site, Evict(s, p))
  {
    hide Sourced;
  }

  lemma InvalidationStaysFresh(site: Site, s: Sys, e: Event)
    requires FeedInvariant(site, s) && e.Invalidation? && OwnedEvent(site, e)
    ensures FeedInvariant(site, StepInvalidation(s, e.eventId, e.candidates, e.floor))
  {
    hide Invalidate, Sourced, EntryOk;
    InvalidateKeepsInvariant(s.mem, e.eventId, e.candidates, e.floor, site.owner);
    InvalidateOnlyForgets(s.mem, e.eventId, e.candidates, e.floor);
  }

  lemma QueueStepStaysFresh(site: Site, s: Sys, p: Path, t: Sys)
    requires FeedInvariant(site, s)
    requires t in {StartHead(s, p), LandHead(s, p), CheckHead(s, p), UndoHead(s, p), LandDeletion(s, p), Evict(s, p)}
    ensures FeedInvariant(site, t)
  {
    hide WorkerSourced, Invariant, MemorySourced;
    QueueStepsStaySourced(site, s, p);
    DeletionsStaySourced(site, s, p);
  }

  lemma StepStaysFresh(site: Site, s: Sys, e: Event)
    requires FeedInvariant(site, s) && Identified(site) && OwnedRenderings(site) && OwnedEvent(site, e)
    ensures FeedInvariant(site, Step(site, s, e))
  {
    hide BeginRequest, ReadCache, MatchWorker, DropStale, RenderFeed, StepInvalidation;
    hide StartHead, LandHead, CheckHead, UndoHead, LandDeletion, Evict;
    hide EntryOk, MemorySourced, WorkerSourced, AllFresh, Identified, OwnedRenderings, OwnedEvent;
    match e
    case Begin(id, p, m, cacheable) => BeginStaysFresh(site, s, id, p, m, cacheable);
    case Read(id, now) => ReadStaysFresh(site, s, id, now);
    case Match(id) => MatchStaysFresh(site, s, id);
    case DeleteStale(id) => DropStaysFresh(site, s, id);
    case Render(id, now) => RenderStaysFresh(site, s, id, now);
    case Invalidation(_, _, _) => InvalidationStaysFresh(site, s, e);
    case _ => QueueStepStaysFresh(site, s, e.path, Step(site, s, e));
  }

  lemma {:induction false} FeedInvariantHolds(site: Site, events: seq<Event>)
    requires Identified(site) && OwnedRenderings(site) && OwnedRun(site, events)
    ensures FeedInvariant(site, Exec(site, events))
  {
    hide Step, FeedInvariant;
    if events != [] {
      var before, e := events[..|events| - 1], events[|events| - 1];
      FeedInvariantHolds(site, before);
      StepStaysFresh(site, Exec(site, before), e);
    } else {
      InitiallyFresh(site);
    }
  }

  lemma InitiallyFresh(site: Site)
    ensures FeedInvariant(site, INITIAL)
  {
  }

  /** The converse: two manifests the cache confuses are enough for a stale answer. */
  function ConfusingRun(p: Path, m: Manifest, w: Manifest): seq<Event>
  {
    [Begin(0, p, m, true), Read(0, 0), Match(0), Render(0, 0), Begin(1, p, w, true), Read(1, 0)]
  }

  lemma ExecNext(site: Site, events: seq<Event>, i: nat)
    requires i < |events|
    ensures Exec(site, events[..i + 1]) == Step(site, Exec(site, events[..i]), events[i])
  {
    assert events[..i + 1][..i] == events[..i];
  }

  lemma ConfusedManifestsServeStale(site: Site, p: Path, m: Manifest, w: Manifest)
    requires Confusable(site, p, m, w) && m.cacheRevision >= 0
    requires Fresh(site, p, w) != Fresh(site, p, m)
    ensures !AllFresh(site, Exec(site, ConfusingRun(p, m, w)))
  {
    hide Step, Exec;
    var run := ConfusingRun(p, m, w);
    FirstRenderCaches(site, p, m, w);
    var s4 := Exec(site, run[..4]);
    ExecNext(site, run, 4);
    ExecNext(site, run, 5);
    assert run[..6] == run;
    assert run[4] == Begin(1, p, w, true) && run[5] == Read(1, 0);
    SecondReadHits(site, s4, p, w);
    var t := Exec(site, run);
    assert 1 in t.requests && t.requests[1] == Request(p, w, true, Done(Fresh(site, p, m)));
  }

  lemma SecondReadHits(site: Site, s: Sys, p: Path, w: Manifest)
    requires s.mem.Valid() && 1 !in s.requests && site.served(p, w)
    requires p in s.mem.entries.m && p !in s.mem.bypassed
    requires Matches(s.mem.entries.m[p], w) && 0 < s.mem.entries.m[p].expiresAt
    ensures var t := Step(site, Step(site, s, Begin(1, p, w, true)), Read(1, 0));
            1 in t.requests && t.requests[1] == Request(p, w, true, Done(Serve(s.mem.entries.m[p])))
  {
  }

  lemma FirstReadMisses(site: Site, p: Path, m: Manifest, w: Manifest)
    requires site.served(p, m)
    ensures Exec(site, ConfusingRun(p, m, w)[..3]) ==
            INITIAL.(requests := map[0 := Request(p, m, true, Rendering)])
  {
    hide RenderFeed, ReadMemory, StepInvalidation;
    var run := ConfusingRun(p, m, w);
    ExecNext(site, run, 0);
    ExecNext(site, run, 1);
    ExecNext(site, run, 2);
    EmptyMemoryMisses(p, m);
  }

  lemma FirstRenderCaches(site: Site, p: Path, m: Manifest, w: Manifest)
    requires Confusable(site, p, m, w) && m.cacheRevision >= 0
    ensures var s := Exec(site, ConfusingRun(p, m, w)[..4]);
            && s.mem.bypassed == [] && p in s.mem.entries.m
            && s.mem.entries.m[p] == EntryFor(site, p, m, site.render(p, m).value, 0)
            && 1 !in s.requests
  {
    hide Step, Exec;
    var run := ConfusingRun(p, m, w);
    FirstReadMisses(site, p, m, w);
    ExecNext(site, run, 3);
    RenderCaches(site, Exec(site, run[..3]), p, m);
  }

  lemma RenderCaches(site: Site, s: Sys, p: Path, m: Manifest)
    requires s.mem == EMPTY_MEMORY && s.requests == map[0 := Request(p, m, true, Rendering)]
    requires site.render(p, m).Some? && m.cacheRevision >= 0
    ensures var t := Step(site, s, Render(0, 0));
            && t.mem.bypassed == [] && p in t.mem.entries.m
            && t.mem.entries.m[p] == EntryFor(site, p, m, site.render(p, m).value, 0)
            && 1 !in t.requests
  {
    hide Write;
    var entry := EntryFor(site, p, m, site.render(p, m).value, 0);
    WriteKeepsInvariant(EMPTY_MEMORY, p, entry, 0, (q: Path) => entry.eventId);
  }

  lemma EmptyMemoryMisses(p: Path, m: Manifest)
    ensures ReadMemory(EMPTY_MEMORY, p, m, 0) == (EMPTY_MEMORY, None)
  {
  }

  /** Every response in every run is the one a fresh render would give, exactly when the cache can tell the served
      manifests of a path apart. */
  lemma CachedFeedRefinesFreshFeed(site: Site)
    requires OwnedRenderings(site)
    requires forall p, m :: site.served(p, m) ==> m.cacheRevision >= 0
    ensures (forall events :: OwnedRun(site, events) ==> AllFresh(site, Exec(site, events))) <==> Identified(site)
  {
    if Identified(site) {
      forall events | OwnedRun(site, events) ensures AllFresh(site, Exec(site, events)) {
        FeedInvariantHolds(site, events);
      }
    } else {
      var p, m, w :| Confusable(site, p, m, w) && Fresh(site, p, w) != Fresh(site, p, m);
      ConfusedManifestsServeStale(site, p, m, w);
      var run := ConfusingRun(p, m, w);
      assert OwnedRun(site, run) && !AllFresh(site, Exec(site, run));
    }
  }
}
