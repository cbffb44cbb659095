/** The public agenda feed over both cache tiers, as a machine whose steps are the code between two awaits of a
    request, of a queued worker-cache operation, or of an invalidation. A run is any sequence of such steps. */
module AgendaFeed {
  import opened Basics
  import opened OrderedMap
  import opened AgendaCache

  const TTL_MS := 60_000
  const MAX_SAFE_INTEGER := 9007199254740991

  datatype Rendered = Rendered(body: string, eventId: string, revisionNumber: int)

  datatype Response = NotFound | Ok(body: string, contentType: string, etag: string)

  /** What the feed is built over: the manifests that may be served for a path, the rendering of a path from the
      immutable revision a manifest names, the digest of a body, and the event a path belongs to. */
  datatype Site = Site(served: (Path, Manifest) -> bool, render: (Path, Manifest) -> Option<Rendered>,
                       contentType: Path -> string, etag: string -> string, owner: Path -> string)

  datatype Phase = Reading | Matching | Deleting | Rendering | Done(response: Response)

  datatype Request = Request(path: Path, manifest: Manifest, cacheable: bool, phase: Phase)

  datatype OpPhase = Queued | Putting | Checking | Undoing

  datatype Op = Op(entry: Entry, generation: int, phase: OpPhase)

  datatype Stored = Stored(entry: Entry, generation: int)

  /** The newest thing that happened to a path. */
  datatype Change = Wrote(entry: Entry, generation: int) | Invalidated

  datatype Sys = Sys(mem: Memory, worker: map<Path, Stored>, queues: map<Path, seq<Op>>, deletions: map<Path, nat>,
                     requests: map<nat, Request>, last: map<Path, Change>)

  datatype Event =
    | Begin(id: nat, path: Path, manifest: Manifest, cacheable: bool)
    | Read(id: nat, now: int)
    | Match(id: nat)
    | DeleteStale(id: nat)
    | Render(id: nat, now: int)
    | Invalidation(eventId: string, candidates: seq<Path>, floor: int)
    | StartPut(path: Path)
    | LandPut(path: Path)
    | CheckPut(path: Path)
    | LandUndo(path: Path)
    | LandInvalidation(path: Path)
    | WorkerEvicts(path: Path)

  const INITIAL := Sys(EMPTY_MEMORY, map[], map[], map[], map[], map[])

  function Queue(s: Sys, p: Path): seq<Op>
  {
    if p in s.queues then s.queues[p] else []
  }

  function Deletions(s: Sys, p: Path): nat
  {
    if p in s.deletions then s.deletions[p] else 0
  }

  function Fresh(site: Site, p: Path, m: Manifest): Response
  {
    match site.render(p, m)
    case None => NotFound
    case Some(r) => Ok(r.body, site.contentType(p), site.etag(r.body))
  }

  function Serve(e: Entry): Response
  {
    Ok(e.body, e.contentType, e.etag)
  }

  function EntryFor(site: Site, p: Path, m: Manifest, r: Rendered, now: int): Entry
  {
    Entry(r.body, site.contentType(p), site.etag(r.body), r.eventId, r.revisionNumber, m.revision, m.cacheRevision,
          now + TTL_MS)
  }

  /** Revisions survive the trip through response headers only when they are positive safe integers. */
  predicate Readable(e: Entry)
  {
    && 0 < e.revisionNumber <= MAX_SAFE_INTEGER
    && 0 < e.programRevision <= MAX_SAFE_INTEGER
    && 0 < e.cacheRevision <= MAX_SAFE_INTEGER
  }

  function SetPhase(s: Sys, id: nat, phase: Phase): Sys
  {
    if id in s.requests then s.(requests := s.requests[id := s.requests[id].(phase := phase)]) else s
  }

  function SetQueue(s: Sys, p: Path, q: seq<Op>): Sys
  {
    s.(queues := s.queues[p := q])
  }

  function StoreWrite(s: Sys, p: Path, e: Entry, now: int): (r: Sys)
    requires s.mem.Valid()
    ensures r.mem.Valid()
  {
    var (mem, generation) := Write(s.mem, p, e, now);
    if generation.None? then s
    else
      s.(mem := mem, queues := s.queues[p := Queue(s, p) + [Op(e, generation.value, Queued)]],
         last := s.last[p := Wrote(e, generation.value)])
  }

  // The segments of one request.

  function BeginRequest(site: Site, s: Sys, id: nat, p: Path, m: Manifest, cacheable: bool): Sys
  {
    if id in s.requests || !site.served(p, m) then s
    else s.(requests := s.requests[id := Request(p, m, cacheable, if cacheable then Reading else Rendering)])
  }

  function ReadCache(s: Sys, id: nat, now: int): (r: Sys)
    requires s.mem.Valid()
    ensures r.mem.Valid()
  {
    if id !in s.requests || s.requests[id].phase != Reading then s
    else
      var q := s.requests[id];
      var (mem, hit) := ReadMemory(s.mem, q.path, q.manifest, now);
      SetPhase(s.(mem := mem), id,
               if hit.Some? then Done(Serve(hit.value))
               else if q.path in s.mem.bypassed then Rendering else Matching)
  }

  function MatchWorker(s: Sys, id: nat): Sys
  {
    if id !in s.requests || s.requests[id].phase != Matching then s
    else
      var q := s.requests[id];
      if q.path !in s.worker then SetPhase(s, id, Rendering)
      else
        var cached := s.worker[q.path].entry;
        SetPhase(s, id, if Readable(cached) && Matches(cached, q.manifest) then Done(Serve(cached)) else Deleting)
  }

  function DropStale(s: Sys, id: nat): Sys
  {
    if id !in s.requests || s.requests[id].phase != Deleting then s
    else SetPhase(s.(worker := s.worker - {s.requests[id].path}), id, Rendering)
  }

  function RenderFeed(site: Site, s: Sys, id: nat, now: int): (r: Sys)
    requires s.mem.Valid()
    ensures r.mem.Valid()
  {
    if id !in s.requests || s.requests[id].phase != Rendering then s
    else
      var q := s.requests[id];
      var result := site.render(q.path, q.manifest);
      var answered := SetPhase(s, id, Done(Fresh(site, q.path, q.manifest)));
      if result.None? || !q.cacheable then answered
      else StoreWrite(answered, q.path, EntryFor(site, q.path, q.manifest, result.value, now), now)
  }

  // The segments of the operation at the head of a path's queue, and deletions landing in the worker cache.

  function StartHead(s: Sys, p: Path): (r: Sys)
    ensures r.mem == s.mem && r.requests == s.requests && r.last == s.last
  {
    var q := Queue(s, p);
    if q == [] || q[0].phase != Queued then s
    else if Level(s.mem.generations, p) != q[0].generation then SetQueue(s, p, q[1..])
    else SetQueue(s, p, [q[0].(phase := Putting)] + q[1..])
  }

  function LandHead(s: Sys, p: Path): (r: Sys)
    ensures r.mem == s.mem && r.requests == s.requests && r.last == s.last
  {
    var q := Queue(s, p);
    if q == [] || q[0].phase != Putting then s
    else SetQueue(s.(worker := s.worker[p := Stored(q[0].entry, q[0].generation)]), p,
                  [q[0].(phase := Checking)] + q[1..])
  }

  function CheckHead(s: Sys, p: Path): (r: Sys)
    ensures r.mem == s.mem && r.requests == s.requests && r.last == s.last
  {
    var q := Queue(s, p);
    if q == [] || q[0].phase != Checking then s
    else if Level(s.mem.generations, p) != q[0].generation && p in s.mem.bypassed then
      SetQueue(s, p, [q[0].(phase := Undoing)] + q[1..])
    else SetQueue(s, p, q[1..])
  }

  function UndoHead(s: Sys, p: Path): (r: Sys)
    ensures r.mem == s.mem && r.requests == s.requests && r.last == s.last
  {
    var q := Queue(s, p);
    if q == [] || q[0].phase != Undoing then s
    else SetQueue(s.(worker := s.worker - {p}), p, q[1..])
  }

  function LandDeletion(s: Sys, p: Path): (r: Sys)
    ensures r.mem == s.mem && r.requests == s.requests && r.last == s.last
  {
    if Deletions(s, p) == 0 then s
    else s.(worker := s.worker - {p}, deletions := s.deletions[p := Deletions(s, p) - 1])
  }

  function Evict(s: Sys, p: Path): (r: Sys)
    ensures r.mem == s.mem && r.requests == s.requests && r.last == s.last
  {
    s.(worker := s.worker - {p})
  }

  function CountDeletions(deletions: map<Path, nat>, paths: seq<Path>): map<Path, nat>
  {
    map p | p in deletions.Keys + (set q | q in paths) ::
      (if p in deletions then deletions[p] else 0) + if p in paths then 1 else 0
  }

  function MarkInvalidated(last: map<Path, Change>, paths: seq<Path>): map<Path, Change>
  {
    map p | p in last.Keys + (set q | q in paths) :: if p in paths then Invalidated else last[p]
  }

  /** The synchronous part of an invalidation; its worker-cache deletions land later. */
  function StepInvalidation(s: Sys, eventId: string, candidates: seq<Path>, floor: int): (r: Sys)
    requires s.mem.Valid()
    ensures r.mem.Valid()
  {
    var (mem, paths) := Invalidate(s.mem, eventId, candidates, floor);
    s.(mem := mem, deletions := CountDeletions(s.deletions, paths), last := MarkInvalidated(s.last, paths))
  }

  function Step(site: Site, s: Sys, e: Event): (r: Sys)
    requires s.mem.Valid()
    ensures r.mem.Valid()
  {
    match e
    case Begin(id, p, m, cacheable) => BeginRequest(site, s, id, p, m, cacheable)
    case Read(id, now) => ReadCache(s, id, now)
    case Match(id) => MatchWorker(s, id)
    case DeleteStale(id) => DropStale(s, id)
    case Render(id, now) => RenderFeed(site, s, id, now)
    case Invalidation(eventId, candidates, floor) => StepInvalidation(s, eventId, candidates, floor)
    case StartPut(p) => StartHead(s, p)
    case LandPut(p) => LandHead(s, p)
    case CheckPut(p) => CheckHead(s, p)
    case LandUndo(p) => UndoHead(s, p)
    case LandInvalidation(p) => LandDeletion(s, p)
    case WorkerEvicts(p) => Evict(s, p)
  }

  function Exec(site: Site, events: seq<Event>): (r: Sys)
    ensures r.mem.Valid()
  {
    if events == [] then INITIAL else Step(site, Exec(site, events[..|events| - 1]), events[|events| - 1])
  }

  // ---------------------------------------------------------------------------------------------
  // Assumptions about a site and a run
  // ---------------------------------------------------------------------------------------------

  /** Each path belongs to one event. */
  ghost predicate OwnedRenderings(site: Site)
  {
    forall p, m :: site.served(p, m) && site.render(p, m).Some? ==> site.render(p, m).value.eventId == site.owner(p)
  }

  ghost predicate OwnedEvent(site: Site, e: Event)
  {
    e.Invalidation? ==> forall p :: p in e.candidates ==> site.owner(p) == e.eventId
  }

  ghost predicate OwnedRun(site: Site, events: seq<Event>)
  {
    forall e :: e in events ==> OwnedEvent(site, e)
  }

  /** Manifests the cache cannot tell apart render alike. */
  ghost predicate Identified(site: Site)
  {
    forall p, m, w :: Confusable(site, p, m, w) ==> Fresh(site, p, w) == Fresh(site, p, m)
  }

  ghost predicate Confusable(site: Site, p: Path, m: Manifest, w: Manifest)
  {
    && site.served(p, m) && site.served(p, w)
    && site.render(p, m).Some?
    && site.render(p, m).value.revisionNumber == w.agendaRevisionNumber
    && m.revision == w.revision && m.cacheRevision == w.cacheRevision
  }

  ghost predicate RequestsServed(site: Site, s: Sys)
  {
    forall id :: id in s.requests ==> site.served(s.requests[id].path, s.requests[id].manifest)
  }

  ghost predicate MemoryOk(site: Site, s: Sys)
  {
    Invariant(s.mem, site.owner) && RequestsServed(site, s)
  }

  ghost predicate IsQueueStep(s: Sys, p: Path, t: Sys)
  {
    t in {StartHead(s, p), LandHead(s, p), CheckHead(s, p), UndoHead(s, p), LandDeletion(s, p), Evict(s, p)}
  }

  lemma ReadKeepsMemory(site: Site, s: Sys, id: nat, now: int)
    requires MemoryOk(site, s)
    ensures MemoryOk(site, ReadCache(s, id, now))
  {
    hide ReadMemory, Invariant;
    if id in s.requests && s.requests[id].phase == Reading {
      var q := s.requests[id];
      ReadKeepsInvariant(s.mem, q.path, q.manifest, now, site.owner);
    }
  }

  lemma StoreKeepsMemory(site: Site, s: Sys, p: Path, e: Entry, now: int)
    requires Invariant(s.mem, site.owner) && e.eventId == site.owner(p)
    ensures Invariant(StoreWrite(s, p, e, now).mem, site.owner)
    ensures StoreWrite(s, p, e, now).requests == s.requests
  {
    hide Write, EntryOk;
    WriteKeepsInvariant(s.mem, p, e, now, site.owner);
  }

  lemma RenderKeepsMemory(site: Site, s: Sys, id: nat, now: int)
    requires OwnedRenderings(site) && MemoryOk(site, s)
    ensures MemoryOk(site, RenderFeed(site, s, id, now))
  {
    hide StoreWrite, EntryOk;
    if id in s.requests && s.requests[id].phase == Rendering {
      var q := s.requests[id];
      var result := site.render(q.path, q.manifest);
      var answered := SetPhase(s, id, Done(Fresh(site, q.path, q.manifest)));
      if result.Some? {
        StoreKeepsMemory(site, answered, q.path, EntryFor(site, q.path, q.manifest, result.value, now), now);
      }
    }
  }

  lemma OtherRequestStepsKeepMemory(site: Site, s: Sys, e: Event)
    requires e.Begin? || e.Match? || e.DeleteStale?
    requires MemoryOk(site, s)
    ensures MemoryOk(site, Step(site, s, e))
  {
    hide Invariant, ReadCache, RenderFeed, StepInvalidation, StartHead, LandHead, CheckHead, UndoHead, LandDeletion, Evict;
  }

  lemma StepKeepsMemory(site: Site, s: Sys, e: Event)
    requires OwnedRenderings(site) && OwnedEvent(site, e) && MemoryOk(site, s)
    ensures MemoryOk(site, Step(site, s, e))
  {
    hide ReadCache, RenderFeed, BeginRequest, MatchWorker, DropStale, EntryOk;
    hide StartHead, LandHead, CheckHead, UndoHead, LandDeletion, Evict;
    if e.Invalidation? {
      hide Invalidate;
      InvalidateKeepsInvariant(s.mem, e.eventId, e.candidates, e.floor, site.owner);
    } else if e.Read? {
      ReadKeepsMemory(site, s, e.id, e.now);
    } else if e.Render? {
      RenderKeepsMemory(site, s, e.id, e.now);
    } else if e.Begin? || e.Match? || e.DeleteStale? {
      OtherRequestStepsKeepMemory(site, s, e);
    }
  }

  /** In every run: at most 128 entries and 256 bypass marks, no cached path is bypassed, and a cached entry is at
      the latest and not below the minimum cache revision of its path. */
  lemma {:induction false} MemoryInvariant(site: Site, events: seq<Event>)
    requires OwnedRenderings(site) && OwnedRun(site, events)
    ensures Invariant(Exec(site, events).mem, site.owner)
    ensures RequestsServed(site, Exec(site, events))
  {
    hide Step;
    if events != [] {
      var before, e := events[..|events| - 1], events[|events| - 1];
      MemoryInvariant(site, before);
      StepKeepsMemory(site, Exec(site, before), e);
    }
  }
}
