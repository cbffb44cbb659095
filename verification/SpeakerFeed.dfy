/** The published-speaker route over both cache tiers, as a machine whose steps are the code between two awaits. */
module SpeakerFeed {
  import opened Basics
  import opened OrderedMap
  import opened SpeakerCache

  datatype Response = NotFound | Ok(body: string, programRevision: int, cacheRevision: int)

  /** The manifests that may be served at a base path, and the body rendered from the projection a manifest names. */
  datatype Site = Site(served: (Base, Manifest) -> bool, render: (Base, Manifest) -> Option<string>)

  datatype Phase = Reading | Matching | Rendering | Done(response: Response)

  datatype Request = Request(base: Base, manifest: Manifest, cacheable: bool, phase: Phase)

  /** A queued worker put; `started` once it passed its generation check. */
  datatype Put = Put(path: Path, entry: Entry, generation: int, started: bool)

  datatype Sys = Sys(mem: Memory, worker: map<Path, Entry>, queues: map<Base, seq<Put>>, requests: map<nat, Request>)

  datatype Event =
    | Begin(id: nat, base: Base, manifest: Manifest, cacheable: bool)
    | Read(id: nat, now: int)
    | Match(id: nat)
    | Render(id: nat, now: int)
    | Invalidation(invalidated: Base, revision: Option<int>)
    | StartPut(queue: Base)
    | LandPut(queue: Base)
    | Remove(path: Path)

  const INITIAL := Sys(EMPTY, map[], map[], map[])

  function Fresh(site: Site, base: Base, m: Manifest): Response
  {
    match site.render(base, m)
    case None => NotFound
    case Some(body) => Ok(body, m.revision, m.cacheRevision)
  }

  function Serve(e: Entry): Response
  {
    Ok(e.body, e.programRevision, e.cacheRevision)
  }

  function EntryFor(body: string, m: Manifest, now: int): Entry
  {
    Entry(body, m.revision, m.cacheRevision, now + TTL_MS)
  }

  predicate Readable(e: Entry)
  {
    0 < e.programRevision <= MAX_SAFE_INTEGER && 0 < e.cacheRevision <= MAX_SAFE_INTEGER
  }

  function SetPhase(s: Sys, id: nat, phase: Phase): Sys
  {
    if id in s.requests then s.(requests := s.requests[id := s.requests[id].(phase := phase)]) else s
  }

  function Queue(s: Sys, base: Base): seq<Put>
  {
    if base in s.queues then s.queues[base] else []
  }

  function BeginRequest(site: Site, s: Sys, id: nat, base: Base, m: Manifest, cacheable: bool): (r: Sys)
    ensures r.mem == s.mem
  {
    if id in s.requests || !site.served(base, m) then s
    else s.(requests := s.requests[id := Request(base, m, cacheable, if cacheable then Reading else Rendering)])
  }

  function ReadCache(s: Sys, id: nat, now: int): (r: Sys)
    requires s.mem.entries.Valid()
    ensures r.mem.entries.Valid()
  {
    if id !in s.requests || s.requests[id].phase != Reading then s
    else
      var q := s.requests[id];
      var (mem, hit) := ReadMemory(s.mem, PathOf(q.base, q.manifest), now);
      SetPhase(s.(mem := mem), id, if hit.Some? then Done(Serve(hit.value)) else Matching)
  }

  function MatchWorker(s: Sys, id: nat): (r: Sys)
    ensures r.mem == s.mem
  {
    if id !in s.requests || s.requests[id].phase != Matching then s
    else
      var q := s.requests[id];
      var path := PathOf(q.base, q.manifest);
      SetPhase(s, id,
               if path in s.worker && Readable(s.worker[path]) && Matches(s.worker[path], path)
               then Done(Serve(s.worker[path])) else Rendering)
  }

  function StoreWrite(s: Sys, p: Path, e: Entry, now: int): (r: Sys)
    requires s.mem.entries.Valid()
    ensures r.mem.entries.Valid()
  {
    var (mem, generation) := Write(s.mem, p, e, now);
    if generation.None? then s
    else s.(mem := mem, queues := s.queues[p.base := Queue(s, p.base) + [Put(p, e, generation.value, false)]])
  }

  function RenderSpeakers(site: Site, s: Sys, id: nat, now: int): (r: Sys)
    requires s.mem.entries.Valid()
    ensures r.mem.entries.Valid()
  {
    if id !in s.requests || s.requests[id].phase != Rendering then s
    else
      var q := s.requests[id];
      var answered := SetPhase(s, id, Done(Fresh(site, q.base, q.manifest)));
      var result := site.render(q.base, q.manifest);
      if result.None? || !q.cacheable then answered
      else StoreWrite(answered, PathOf(q.base, q.manifest), EntryFor(result.value, q.manifest, now), now)
  }

  /** The put at the head of a queue goes on only under its own generation. */
  function StartHead(s: Sys, base: Base): (r: Sys)
    ensures r.mem == s.mem && r.requests == s.requests && r.worker == s.worker
  {
    var q := Queue(s, base);
    if q == [] || q[0].started then s
    else if Level(s.mem.generations, base) != q[0].generation then s.(queues := s.queues[base := q[1..]])
    else s.(queues := s.queues[base := [q[0].(started := true)] + q[1..]])
  }

  function LandHead(s: Sys, base: Base): (r: Sys)
    ensures r.mem == s.mem && r.requests == s.requests
  {
    var q := Queue(s, base);
    if q == [] || !q[0].started then s
    else s.(worker := s.worker[q[0].path := q[0].entry], queues := s.queues[base := q[1..]])
  }

  function Step(site: Site, s: Sys, e: Event): (r: Sys)
    requires s.mem.entries.Valid()
    ensures r.mem.entries.Valid()
  {
    match e
    case Begin(id, base, m, cacheable) => BeginRequest(site, s, id, base, m, cacheable)
    case Read(id, now) => ReadCache(s, id, now)
    case Match(id) => MatchWorker(s, id)
    case Render(id, now) => RenderSpeakers(site, s, id, now)
    case Invalidation(base, revision) => s.(mem := Invalidate(s.mem, base, revision))
    case StartPut(base) => StartHead(s, base)
    case LandPut(base) => LandHead(s, base)
    case Remove(path) => s.(worker := s.worker - {path})
  }

  function Exec(site: Site, events: seq<Event>): (r: Sys)
    ensures r.mem.entries.Valid()
  {
    if events == [] then INITIAL else Step(site, Exec(site, events[..|events| - 1]), events[|events| - 1])
  }

  // ---------------------------------------------------------------------------------------------
  // Freshness
  // ---------------------------------------------------------------------------------------------

  /** Manifests with the same revisions, the first of which renders. */
  ghost predicate Confusable(site: Site, base: Base, m: Manifest, w: Manifest)
  {
    site.served(base, m) && site.served(base, w) && site.render(base, m).Some? && PathOf(base, m) == PathOf(base, w)
  }

  /** The revisions of a manifest determine what it renders. */
  ghost predicate Identified(site: Site)
  {
    forall base, m, w :: Confusable(site, base, m, w) ==> Fresh(site, base, w) == Fresh(site, base, m)
  }

  /** The entry was rendered for a manifest with the revisions of the path. */
  ghost predicate Sourced(site: Site, p: Path, e: Entry)
  {
    exists m :: site.served(p.base, m) && site.render(p.base, m).Some? && PathOf(p.base, m) == p &&
                Serve(e) == Fresh(site, p.base, m)
  }

  ghost predicate StoreSourced(site: Site, s: Sys)
  {
    && (forall p :: p in s.mem.entries.m ==> Sourced(site, p, s.mem.entries.m[p]))
    && (forall p :: p in s.worker ==> Sourced(site, p, s.worker[p]))
    && (forall base, i :: base in s.queues && 0 <= i < |s.queues[base]| ==>
          Sourced(site, s.queues[base][i].path, s.queues[base][i].entry))
  }

  ghost predicate AllFresh(site: Site, s: Sys)
  {
    forall id :: id in s.requests && s.requests[id].phase.Done? ==>
      s.requests[id].phase.response == Fresh(site, s.requests[id].base, s.requests[id].manifest)
  }

  ghost predicate RequestsServed(site: Site, s: Sys)
  {
    forall id :: id in s.requests ==> site.served(s.requests[id].base, s.requests[id].manifest)
  }

  ghost predicate FeedInvariant(site: Site, s: Sys)
  {
    MemoryOk(s.mem) && StoreSourced(site, s) && RequestsServed(site, s) && (Identified(site) ==> AllFresh(site, s))
  }

  lemma SourceIsFresh(site: Site, base: Base, m: Manifest, e: Entry)
    requires Identified(site) && site.served(base, m) && Sourced(site, PathOf(base, m), e)
    ensures Serve(e) == Fresh(site, base, m)
  {
    var w :| site.served(base, w) && site.render(base, w).Some? && PathOf(base, w) == PathOf(base, m) &&
             Serve(e) == Fresh(site, base, w);
    assert Confusable(site, base, w, m);
  }

  lemma ReadStaysFresh(site: Site, s: Sys, id: nat, now: int)
    requires FeedInvariant(site, s)
    ensures FeedInvariant(site, ReadCache(s, id, now))
  {
    hide Sourced, Identified, MemoryOk;
    if id in s.requests && s.requests[id].phase == Reading {
      var q := s.requests[id];
      var p := PathOf(q.base, q.manifest);
      ReadKeepsMemory(s.mem, p, now);
      if Identified(site) && p in s.mem.entries.m {
        SourceIsFresh(site, q.base, q.manifest, s.mem.entries.m[p]);
      }
    }
  }

  lemma MatchStaysFresh(site: Site, s: Sys, id: nat)
    requires FeedInvariant(site, s)
    ensures FeedInvariant(site, MatchWorker(s, id))
  {
    hide Sourced, Identified, MemoryOk;
    if id in s.requests && s.requests[id].phase == Matching {
      var q := s.requests[id];
      var p := PathOf(q.base, q.manifest);
      if Identified(site) && p in s.worker {
        SourceIsFresh(site, q.base, q.manifest, s.worker[p]);
      }
    }
  }

  lemma RenderStaysFresh(site: Site, s: Sys, id: nat, now: int)
    requires FeedInvariant(site, s)
    ensures FeedInvariant(site, RenderSpeakers(site, s, id, now))
  {
    hide Sourced, Identified, MemoryOk, StoreWrite;
    if id in s.requests && s.requests[id].phase == Rendering {
      var q := s.requests[id];
      var answered := SetPhase(s, id, Done(Fresh(site, q.base, q.manifest)));
      var result := site.render(q.base, q.manifest);
      if result.Some? && q.cacheable {
        var e := EntryFor(result.value, q.manifest, now);
        RenderedIsSourced(site, q.base, q.manifest, e);
        WriteStaysSourced(site, answered, PathOf(q.base, q.manifest), e, now);
      }
    }
  }

  lemma RenderedIsSourced(site: Site, base: Base, m: Manifest, e: Entry)
    requires site.served(base, m) && site.render(base, m).Some? && Serve(e) == Fresh(site, base, m)
    ensures Sourced(site, PathOf(base, m), e)
  {
  }

  lemma WriteStaysSourced(site: Site, s: Sys, p: Path, e: Entry, now: int)
    requires MemoryOk(s.mem) && StoreSourced(site, s) && Sourced(site, p, e) && Matches(e, p)
    ensures var t := StoreWrite(s, p, e, now); MemoryOk(t.mem) && StoreSourced(site, t) && t.requests == s.requests
  {
    hide Sourced, Write;
    WriteKeepsMemory(s.mem, p, e, now);
    var t := StoreWrite(s, p, e, now);
    forall base, i | base in t.queues && 0 <= i < |t.queues[base]|
      ensures Sourced(site, t.queues[base][i].path, t.queues[base][i].entry)
    {
      if base in s.queues && i < |s.queues[base]| {
        assert t.queues[base][i] == s.queues[base][i];
      }
    }
  }

  lemma TierStepsStayFresh(site: Site, s: Sys, e: Event)
    requires FeedInvariant(site, s) && (e.Begin? || e.StartPut? || e.LandPut? || e.Remove? || e.Invalidation?)
    ensures FeedInvariant(site, Step(site, s, e))
  {
    hide Sourced, Identified, MemoryOk;
    if e.Invalidation? {
      InvalidateKeepsMemory(s.mem, e.invalidated, e.revision);
    }
  }

  lemma StepStaysFresh(site: Site, s: Sys, e: Event)
    requires FeedInvariant(site, s)
    ensures FeedInvariant(site, Step(site, s, e))
  {
    hide FeedInvariant, ReadCache, MatchWorker, RenderSpeakers, BeginRequest, StartHead, LandHead;
    match e
    case Read(id, now) => ReadStaysFresh(site, s, id, now);
    case Match(id) => MatchStaysFresh(site, s, id);
    case Render(id, now) => RenderStaysFresh(site, s, id, now);
    case _ => TierStepsStayFresh(site, s, e);
  }

  /** In every run the memory is bounded, holds at most one entry of a base path, at its latest cache revision, and every
      stored response is a rendering for the revisions it is stored under. */
  lemma {:induction false} FeedInvariantHolds(site: Site, events: seq<Event>)
    ensures FeedInvariant(site, Exec(site, events))
  {
    hide Step, FeedInvariant;
    if events == [] {
      InitiallyFresh(site);
    } else {
      FeedInvariantHolds(site, events[..|events| - 1]);
      StepStaysFresh(site, Exec(site, events[..|events| - 1]), events[|events| - 1]);
    }
  }

  lemma InitiallyFresh(site: Site)
    ensures FeedInvariant(site, INITIAL)
  {
  }

  function ConfusingRun(base: Base, m: Manifest, w: Manifest): seq<Event>
  {
    [Begin(0, base, m, true), Read(0, 0), Match(0), Render(0, 0), Begin(1, base, w, true), Read(1, 0)]
  }

  lemma ExecNext(site: Site, events: seq<Event>, i: nat)
    requires i < |events|
    ensures Exec(site, events[..i + 1]) == Step(site, Exec(site, events[..i]), events[i])
  {
    assert events[..i + 1][..i] == events[..i];
  }

  lemma ConfusedManifestsServeStale(site: Site, base: Base, m: Manifest, w: Manifest)
    requires Confusable(site, base, m, w) && m.cacheRevision >= 0 && Fresh(site, base, w) != Fresh(site, base, m)
    ensures !AllFresh(site, Exec(site, ConfusingRun(base, m, w)))
  {
    hide Step, Exec;
    var run := ConfusingRun(base, m, w);
    FirstRenderCaches(site, base, m, w);
    ExecNext(site, run, 4);
    ExecNext(site, run, 5);
    assert run[..6] == run;
    SecondReadHits(site, Exec(site, run[..4]), base, w);
    assert 1 in Exec(site, run).requests;
  }

  lemma SecondReadHits(site: Site, s: Sys, base: Base, w: Manifest)
    requires s.mem.entries.Valid() && 1 !in s.requests && site.served(base, w)
    requires var p := PathOf(base, w); p in s.mem.entries.m && Matches(s.mem.entries.m[p], p) && 0 < s.mem.entries.m[p].expiresAt
    ensures var t := Step(site, Step(site, s, Begin(1, base, w, true)), Read(1, 0));
            1 in t.requests && t.requests[1] == Request(base, w, true, Done(Serve(s.mem.entries.m[PathOf(base, w)])))
  {
  }

  lemma FirstReadMisses(site: Site, base: Base, m: Manifest, w: Manifest)
    requires site.served(base, m)
    ensures Exec(site, ConfusingRun(base, m, w)[..3]) ==
            INITIAL.(requests := map[0 := Request(base, m, true, Rendering)])
  {
    hide RenderSpeakers, ReadMemory;
    var run := ConfusingRun(base, m, w);
    ExecNext(site, run, 0);
    ExecNext(site, run, 1);
    ExecNext(site, run, 2);
    EmptyMemoryMisses(PathOf(base, m));
  }

  lemma EmptyMemoryMisses(p: Path)
    ensures ReadMemory(EMPTY, p, 0) == (EMPTY, None)
  {
  }

  lemma FirstRenderCaches(site: Site, base: Base, m: Manifest, w: Manifest)
    requires Confusable(site, base, m, w) && m.cacheRevision >= 0
    ensures var s := Exec(site, ConfusingRun(base, m, w)[..4]);
            && PathOf(base, m) in s.mem.entries.m
            && s.mem.entries.m[PathOf(base, m)] == EntryFor(site.render(base, m).value, m, 0)
            && 1 !in s.requests
  {
    hide Step, Exec;
    var run := ConfusingRun(base, m, w);
    FirstReadMisses(site, base, m, w);
    ExecNext(site, run, 3);
    RenderCaches(site, Exec(site, run[..3]), base, m);
  }

  lemma RenderCaches(site: Site, s: Sys, base: Base, m: Manifest)
    requires s.mem == EMPTY && s.requests == map[0 := Request(base, m, true, Rendering)]
    requires site.render(base, m).Some? && m.cacheRevision >= 0
    ensures var t := Step(site, s, Render(0, 0));
            && PathOf(base, m) in t.mem.entries.m
            && t.mem.entries.m[PathOf(base, m)] == EntryFor(site.render(base, m).value, m, 0)
            && 1 !in t.requests
  {
    hide Write, BeginRequest, ReadCache, MatchWorker, StartHead, LandHead, Invalidate, EvictOldest, Retain, MemoryOk;
    var p, e := PathOf(base, m), EntryFor(site.render(base, m).value, m, 0);
    EmptyIsOk();
    WriteAt(EMPTY, p, e, 0, p);
    WriteIsRead(EMPTY, p, e, 0);
    AcceptedGeneration(EMPTY, p, e, 0);
  }

  lemma EmptyIsOk()
    ensures MemoryOk(EMPTY) && EMPTY.entries.Valid()
  {
  }

  lemma AcceptedGeneration(m: Memory, p: Path, e: Entry, now: int)
    requires m.entries.Valid() && Accepts(m, p, e)
    ensures Write(m, p, e, now).1.Some?
  {
  }

  /** Every response in every run is the one a fresh render would give, exactly when the revisions of the served manifests
      determine what they render. */
  lemma CachedSpeakersRefineFresh(site: Site)
    requires forall base, m :: site.served(base, m) ==> m.cacheRevision >= 0
    ensures (forall events :: AllFresh(site, Exec(site, events))) <==> Identified(site)
  {
    if Identified(site) {
      forall events ensures AllFresh(site, Exec(site, events)) {
        FeedInvariantHolds(site, events);
      }
    } else {
      var base, m, w :| Confusable(site, base, m, w) && Fresh(site, base, w) != Fresh(site, base, m);
      ConfusedManifestsServeStale(site, base, m, w);
    }
  }
}
