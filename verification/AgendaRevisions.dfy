/** Which renderings the agenda cache stores, told by the run alone: the revisions stored and the floors invalidated before
    decide, and nothing stored is ever followed by something older. */
module AgendaRevisions {
  import opened Basics
  import opened OrderedMap
  import opened AgendaCache
  import opened AgendaFeed
  import opened AgendaWorkerTier
  import opened AgendaContents

  /** What a step that renders a cacheable request has to offer for a path. */
  ghost function Offered(site: Site, s: Sys, e: Event, p: Path): Option<Entry>
  {
    if e.Render? && e.id in s.requests && s.requests[e.id].phase == Rendering && s.requests[e.id].cacheable
       && s.requests[e.id].path == p && site.render(p, s.requests[e.id].manifest).Some? then
      var m := s.requests[e.id].manifest;
      var r := site.render(p, m).value;
      Some(Entry(r.body, site.contentType(p), site.etag(r.body), r.eventId, r.revisionNumber, m.revision, m.cacheRevision,
                 e.now + 60_000))
    else None
  }

  ghost function Before(site: Site, events: seq<Event>, k: nat): Sys
    requires k <= |events|
  {
    Exec(site, events[..k])
  }

  /** Step `k` offered the entry and queued a put for the path. */
  ghost predicate Stored(site: Site, events: seq<Event>, k: nat, p: Path, e: Entry)
  {
    && k < |events|
    && Offered(site, Before(site, events, k), events[k], p) == Some(e)
    && |Queue(Before(site, events, k + 1), p)| > |Queue(Before(site, events, k), p)|
  }

  /** Step `k` is an invalidation that covers the path. */
  ghost predicate Covered(site: Site, events: seq<Event>, k: nat, p: Path)
  {
    k < |events| && events[k].Invalidation? && Covers(Before(site, events, k), events[k], p)
  }

  // ---------------------------------------------------------------------------------------------
  // One step
  // ---------------------------------------------------------------------------------------------

  ghost predicate SameRevisions(s: Sys, t: Sys, p: Path)
  {
    && Level(t.mem.latest, p) == Level(s.mem.latest, p)
    && Level(t.mem.minimum, p) == Level(s.mem.minimum, p)
    && |Queue(t, p)| <= |Queue(s, p)|
  }

  /** An offered entry in the memory, the queue and the history. */
  ghost predicate Kept(s: Sys, t: Sys, p: Path, e: Entry)
  {
    && p in t.mem.entries.m && t.mem.entries.m[p] == e && p !in t.mem.bypassed
    && Queue(t, p) == Queue(s, p) + [Op(e, Level(s.mem.generations, p) + 1, Queued)]
    && Level(t.mem.generations, p) == Level(s.mem.generations, p) + 1
    && Level(t.mem.latest, p) == e.cacheRevision
    && Level(t.mem.minimum, p) == Level(s.mem.minimum, p)
  }

  lemma StoreAt(s: Sys, p: Path, e: Entry, now: int, o: Path)
    requires s.mem.Valid() && |s.mem.entries.keys| <= MAX_ENTRIES
    ensures var t := StoreWrite(s, p, e, now);
            if Level(s.mem.minimum, p) <= e.cacheRevision && Level(s.mem.latest, p) <= e.cacheRevision
            then Kept(s, t, p, e) && (o != p ==> SameRevisions(s, t, o))
            else t == s
  {
    hide AgendaCache.Remember, Without, Distinct;
    if Accepts(s.mem, p, e) {
      RememberKeepsNewEntry(Accepted(s.mem, p, e), p, e, now);
      assert p !in Without(s.mem.bypassed, p);
    }
  }

  lemma RenderAt(site: Site, s: Sys, id: nat, now: int, p: Path)
    requires s.mem.Valid() && |s.mem.entries.keys| <= MAX_ENTRIES
    ensures var t, x := RenderFeed(site, s, id, now), Offered(site, s, Render(id, now), p);
            if x.Some? && Level(s.mem.minimum, p) <= x.value.cacheRevision && Level(s.mem.latest, p) <= x.value.cacheRevision
            then Kept(s, t, p, x.value)
            else SameRevisions(s, t, p)
  {
    hide StoreWrite, Kept;
    if id in s.requests && s.requests[id].phase == Rendering {
      var q := s.requests[id];
      var answered := SetPhase(s, id, Done(Fresh(site, q.path, q.manifest)));
      var result := site.render(q.path, q.manifest);
      if result.Some? && q.cacheable {
        var e := EntryFor(site, q.path, q.manifest, result.value, now);
        StoreAt(answered, q.path, e, now, p);
        SameForRequests(s, answered, StoreWrite(answered, q.path, e, now), q.path, e);
      }
    }
  }

  lemma SameForRequests(s: Sys, answered: Sys, t: Sys, p: Path, e: Entry)
    requires answered == s.(requests := answered.requests)
    ensures Kept(answered, t, p, e) <==> Kept(s, t, p, e)
  {
  }

  lemma InvalidationAt(s: Sys, eventId: string, candidates: seq<Path>, floor: int, p: Path)
    requires s.mem.Valid()
    ensures var t := StepInvalidation(s, eventId, candidates, floor);
            && Queue(t, p) == Queue(s, p) && Level(t.mem.latest, p) == Level(s.mem.latest, p)
            && Level(t.mem.minimum, p) ==
               if p in CoveredPaths(s.mem, eventId, candidates) && Level(s.mem.minimum, p) < floor then floor
               else Level(s.mem.minimum, p)
  {
    hide Invalidate, CoveredPaths;
    InvalidateMarks(s.mem, eventId, candidates, floor);
    InvalidateOnlyForgets(s.mem, eventId, candidates, floor);
  }

  lemma ReadAt(s: Sys, id: nat, now: int, p: Path)
    requires s.mem.Valid()
    ensures SameRevisions(s, ReadCache(s, id, now), p)
  {
    hide ReadMemory;
    if id in s.requests && s.requests[id].phase == Reading {
      ReadOnlyForgets(s.mem, s.requests[id].path, s.requests[id].manifest, now);
    }
  }

  /** Another queue of one path, no longer than it was. */
  lemma ShorterQueueAt(s: Sys, t: Sys, p: Path, o: Path, q: seq<Op>)
    requires t.mem == s.mem && |q| <= |Queue(s, o)| && t.queues == s.queues[o := q]
    ensures SameRevisions(s, t, p)
  {
  }

  lemma StartAt(s: Sys, p: Path, o: Path)
    ensures SameRevisions(s, StartHead(s, o), p) && SameRevisions(s, CheckHead(s, o), p)
  {
    hide Level;
    var q := Queue(s, o);
    if q != [] {
      ShorterQueueAt(s, SetQueue(s, o, q[1..]), p, o, q[1..]);
      ShorterQueueAt(s, SetQueue(s, o, [q[0].(phase := Putting)] + q[1..]), p, o, [q[0].(phase := Putting)] + q[1..]);
      ShorterQueueAt(s, SetQueue(s, o, [q[0].(phase := Undoing)] + q[1..]), p, o, [q[0].(phase := Undoing)] + q[1..]);
    }
  }

  lemma LandAt(s: Sys, p: Path, o: Path)
    ensures SameRevisions(s, LandHead(s, o), p) && SameRevisions(s, UndoHead(s, o), p)
    ensures SameRevisions(s, LandDeletion(s, o), p) && SameRevisions(s, Evict(s, o), p)
  {
    hide Level;
    var q := Queue(s, o);
    if q != [] {
      ShorterQueueAt(s, SetQueue(s.(worker := LandHead(s, o).worker), o, [q[0].(phase := Checking)] + q[1..]), p, o,
                     [q[0].(phase := Checking)] + q[1..]);
      ShorterQueueAt(s, SetQueue(s.(worker := s.worker - {o}), o, q[1..]), p, o, q[1..]);
    }
  }

  lemma OtherStepAt(site: Site, s: Sys, e: Event, p: Path)
    requires s.mem.Valid() && !e.Render? && !e.Invalidation?
    ensures SameRevisions(s, Step(site, s, e), p)
  {
    hide ReadCache, StartHead, LandHead, CheckHead, UndoHead, LandDeletion, Evict, Level;
    if e.Read? {
      ReadAt(s, e.id, e.now, p);
    } else if !e.Begin? && !e.Match? && !e.DeleteStale? {
      StartAt(s, p, e.path);
      LandAt(s, p, e.path);
    }
  }

  // ---------------------------------------------------------------------------------------------
  // Whole runs
  // ---------------------------------------------------------------------------------------------

  lemma BeforeNext(site: Site, events: seq<Event>, k: nat)
    requires k < |events|
    ensures Before(site, events, k + 1) == Step(site, Before(site, events, k), events[k])
  {
    assert events[..k + 1][..k] == events[..k];
  }

  /** The latest revision of a path before step `n` is the greatest stored so far. */
  ghost predicate LatestTells(site: Site, events: seq<Event>, n: nat, p: Path)
    requires n <= |events|
  {
    var latest := Level(Before(site, events, n).mem.latest, p);
    && latest >= 0
    && (forall k: nat, e: Entry :: k < n && Stored(site, events, k, p, e) ==> e.cacheRevision <= latest)
    && (latest == 0 || exists k: nat, e: Entry :: k < n && Stored(site, events, k, p, e) && e.cacheRevision == latest)
  }

  /** The minimum revision of a path before step `n` is the greatest floor that covered it so far. */
  ghost predicate MinimumTells(site: Site, events: seq<Event>, n: nat, p: Path)
    requires n <= |events|
  {
    var minimum := Level(Before(site, events, n).mem.minimum, p);
    && minimum >= 0
    && (forall k: nat :: k < n && Covered(site, events, k, p) ==> events[k].floor <= minimum)
    && (minimum == 0 || exists k: nat :: k < n && Covered(site, events, k, p) && events[k].floor == minimum)
  }

  /** How one step of a run moves the levels of a path. */
  ghost predicate LevelsMove(site: Site, events: seq<Event>, k: nat, p: Path)
    requires k < |events|
  {
    var s, t := Before(site, events, k), Before(site, events, k + 1);
    var x := Offered(site, s, events[k], p);
    if x.Some? && Level(s.mem.minimum, p) <= x.value.cacheRevision && Level(s.mem.latest, p) <= x.value.cacheRevision
    then Kept(s, t, p, x.value)
    else if Covered(site, events, k, p) then
      && |Queue(t, p)| <= |Queue(s, p)| && Level(t.mem.latest, p) == Level(s.mem.latest, p)
      && Level(t.mem.minimum, p) ==
         if Level(s.mem.minimum, p) < events[k].floor then events[k].floor else Level(s.mem.minimum, p)
    else SameRevisions(s, t, p)
  }

  lemma EachStepMoves(site: Site, events: seq<Event>, k: nat, p: Path)
    requires k < |events|
    ensures LevelsMove(site, events, k, p)
  {
    hide Kept, Exec, RenderFeed, StepInvalidation, CoveredPaths;
    var s, e := Before(site, events, k), events[k];
    TierInvariantHolds(site, events[..k]);
    BeforeNext(site, events, k);
    match e
    case Render(id, now) => RenderAt(site, s, id, now, p);
    case Invalidation(eventId, candidates, floor) => InvalidationAt(s, eventId, candidates, floor, p);
    case _ =>
      hide Step;
      OtherStepAt(site, s, e, p);
  }

  lemma {:induction false} LevelsHold(site: Site, events: seq<Event>, n: nat, p: Path)
    requires n <= |events|
    ensures LatestTells(site, events, n, p) && MinimumTells(site, events, n, p)
  {
    hide Exec, Before, Stored, Covered, LevelsMove;
    if n == 0 {
      NothingYet(site, events);
    } else {
      LevelsHold(site, events, n - 1, p);
      EachStepMoves(site, events, n - 1, p);
      LatestFollows(site, events, n - 1, p);
      MinimumFollows(site, events, n - 1, p);
    }
  }

  lemma NothingYet(site: Site, events: seq<Event>)
    ensures Before(site, events, 0) == INITIAL
  {
  }

  lemma LatestFollows(site: Site, events: seq<Event>, n: nat, p: Path)
    requires n < |events| && LatestTells(site, events, n, p) && LevelsMove(site, events, n, p)
    ensures LatestTells(site, events, n + 1, p)
  {
    hide Exec, Before, Offered, Covered;
    var s, t := Before(site, events, n), Before(site, events, n + 1);
    var x := Offered(site, s, events[n], p);
    if x.Some? && Level(s.mem.minimum, p) <= x.value.cacheRevision && Level(s.mem.latest, p) <= x.value.cacheRevision {
      assert Stored(site, events, n, p, x.value);
    } else {
      assert forall e :: !Stored(site, events, n, p, e);
    }
  }

  lemma MinimumFollows(site: Site, events: seq<Event>, n: nat, p: Path)
    requires n < |events| && MinimumTells(site, events, n, p) && LevelsMove(site, events, n, p)
    ensures MinimumTells(site, events, n + 1, p)
  {
    hide Exec, Before, Offered, Covered;
    if Offered(site, Before(site, events, n), events[n], p).Some? {
      OfferIsNoInvalidation(site, events, n, p);
    }
  }

  /** A rendering is stored if and only if its cache revision is not negative, not below any revision stored at the path
      before, and not below the floor of any invalidation that covered the path before. Stored, it is the path's entry in
      memory, unbypassed, and its put is the last one queued. */
  lemma StoredExactly(site: Site, events: seq<Event>, k: nat, p: Path, e: Entry)
    requires k < |events| && Offered(site, Before(site, events, k), events[k], p) == Some(e)
    ensures Stored(site, events, k, p, e) <==>
            && e.cacheRevision >= 0
            && (forall j: nat, x: Entry :: j < k && Stored(site, events, j, p, x) ==> x.cacheRevision <= e.cacheRevision)
            && (forall j: nat :: j < k && Covered(site, events, j, p) ==> events[j].floor <= e.cacheRevision)
    ensures Stored(site, events, k, p, e) ==>
              Kept(Before(site, events, k), Before(site, events, k + 1), p, e)
  {
    hide Exec, Before, Offered, Covered, Kept;
    LevelsHold(site, events, k, p);
    EachStepMoves(site, events, k, p);
    OfferIsNoInvalidation(site, events, k, p);
    KeptGrows(Before(site, events, k), Before(site, events, k + 1), p, e);
  }

  lemma OfferIsNoInvalidation(site: Site, events: seq<Event>, k: nat, p: Path)
    requires k < |events| && Offered(site, Before(site, events, k), events[k], p).Some?
    ensures !Covered(site, events, k, p)
  {
  }

  lemma KeptGrows(s: Sys, t: Sys, p: Path, e: Entry)
    ensures Kept(s, t, p, e) ==> |Queue(t, p)| > |Queue(s, p)|
  {
  }

  /** The latest revision of a path never falls. */
  lemma {:induction false} LatestNeverFalls(site: Site, events: seq<Event>, i: nat, j: nat, p: Path)
    requires i <= j <= |events|
    ensures Level(Before(site, events, i).mem.latest, p) <= Level(Before(site, events, j).mem.latest, p)
    decreases j
  {
    hide Exec, Before, Offered, Covered;
    if i < j {
      LatestNeverFalls(site, events, i, j - 1, p);
      EachStepMoves(site, events, j - 1, p);
    }
  }

  /** Worker-tier safety by revisions: as long as marks fit, a settled worker-cached response is a stored rendering whose
      cache revision is the greatest ever stored at its path and not below any floor that covered it. */
  lemma SettledWorkerIsLatest(site: Site, events: seq<Event>, p: Path) returns (k: nat)
    requires forall i :: 0 <= i < |events| ==> BypassFits(Exec(site, events[..i]), events[i])
    requires Settled(Exec(site, events), p) && p in Exec(site, events).worker
    ensures var held := Exec(site, events).worker[p].entry;
            && Stored(site, events, k, p, held)
            && (forall j: nat, x: Entry :: Stored(site, events, j, p, x) ==> j <= k && x.cacheRevision <= held.cacheRevision)
            && (forall j: nat :: Covered(site, events, j, p) ==> j < k && events[j].floor <= held.cacheRevision)
  {
    hide Exec, Settled, BypassFits, Step;
    k := WorkerTierSafety(site, events, p);
    var held := Exec(site, events).worker[p].entry;
    assert Offered(site, Before(site, events, k), events[k], p) == Some(held) by { AcceptedIsOffered(site, events, k, p); }
    AcceptedIsStored(site, events, k, p, held);
    StoredExactly(site, events, k, p, held);
    forall j: nat, x: Entry | Stored(site, events, j, p, x) ensures j <= k {
      if j > k {
        StoredChanges(site, events, j, p, x);
      }
    }
    forall j: nat | Covered(site, events, j, p) ensures j < k {
      OfferIsNoInvalidation(site, events, k, p);
    }
  }

  lemma AcceptedIsOffered(site: Site, events: seq<Event>, k: nat, p: Path)
    requires k < |events| && AcceptedWrite(site, Exec(site, events[..k]), events[k], p).Some?
    ensures Offered(site, Before(site, events, k), events[k], p) ==
            AcceptedWrite(site, Exec(site, events[..k]), events[k], p)
  {
    hide Exec;
  }

  lemma AcceptedIsStored(site: Site, events: seq<Event>, k: nat, p: Path, e: Entry)
    requires k < |events| && AcceptedWrite(site, Exec(site, events[..k]), events[k], p) == Some(e)
    ensures Stored(site, events, k, p, e)
  {
    hide Exec, Kept;
    AcceptedIsOffered(site, events, k, p);
    EachStepMoves(site, events, k, p);
    KeptGrows(Before(site, events, k), Before(site, events, k + 1), p, e);
  }

  lemma StoredChanges(site: Site, events: seq<Event>, k: nat, p: Path, e: Entry)
    requires Stored(site, events, k, p, e)
    ensures Changes(site, Exec(site, events[..k]), events[k], p)
  {
    hide Exec, Kept, CoveredPaths;
    EachStepMoves(site, events, k, p);
  }

  // ---------------------------------------------------------------------------------------------
  // What was stored is served
  // ---------------------------------------------------------------------------------------------

  /** Right after it was stored, an unexpired rendering answers every waiting request for the same revisions. */
  lemma StoredIsServed(site: Site, events: seq<Event>, k: nat, p: Path, e: Entry, id: nat, now: int)
    requires Stored(site, events, k, p, e) && now < e.expiresAt
    requires var t := Before(site, events, k + 1);
             id in t.requests && t.requests[id].phase == Reading && t.requests[id].path == p &&
             t.requests[id].manifest.agendaRevisionNumber == e.revisionNumber &&
             t.requests[id].manifest.revision == e.programRevision &&
             t.requests[id].manifest.cacheRevision == e.cacheRevision
    ensures var u := Step(site, Before(site, events, k + 1), Read(id, now));
            id in u.requests && u.requests[id].phase == Done(Ok(e.body, e.contentType, e.etag))
  {
    hide Exec, Before, Offered;
    StoredExactly(site, events, k, p, e);
  }

  /** A put that nothing interferes with lands: the path settles with the stored rendering in the worker cache. */
  lemma UndisturbedPutLands(site: Site, events: seq<Event>, k: nat, p: Path, e: Entry)
    requires Stored(site, events, k, p, e) && Queue(Before(site, events, k), p) == []
    ensures var t := Before(site, events, k + 1);
            var u := Step(site, Step(site, Step(site, t, StartPut(p)), LandPut(p)), CheckPut(p));
            && Queue(u, p) == [] && p in u.worker && u.worker[p].entry == e && u.mem == t.mem
            && (forall o :: o != p ==> (o in u.worker <==> o in t.worker) && (o in u.worker ==> u.worker[o] == t.worker[o]))
  {
    hide Exec, Before, Offered;
    StoredExactly(site, events, k, p, e);
  }

  /** The entry was rendered from the revisions the manifest names. */
  ghost predicate OfManifest(e: Entry, m: Manifest)
  {
    e.revisionNumber == m.agendaRevisionNumber && e.programRevision == m.revision && e.cacheRevision == m.cacheRevision
  }

  /** Where a cacheable request goes from its read: it is answered from an unexpired entry of its revisions; it passes the
      worker cache by when its path was invalidated; otherwise it asks the worker cache. */
  lemma ReadDecides(site: Site, s: Sys, id: nat, now: int)
    requires s.mem.Valid() && id in s.requests && s.requests[id].phase == Reading
    ensures var q := s.requests[id];
            var live := LiveAt(s.mem, now);
            var t := Step(site, s, Read(id, now));
            && id in t.requests
            && t.requests[id].phase ==
                 (if q.path in s.mem.bypassed then Rendering
                  else if q.path in live && OfManifest(live[q.path], q.manifest)
                  then Done(Ok(live[q.path].body, live[q.path].contentType, live[q.path].etag))
                  else Matching)
  {
    hide AgendaCache.ReadMemory;
    ReadServesExactly(s.mem, s.requests[id].path, s.requests[id].manifest, now);
  }

  lemma MatchWorkerDecides(s: Sys, id: nat)
    requires id in s.requests && s.requests[id].phase == Matching
    ensures var q := s.requests[id];
            var t := MatchWorker(s, id);
            && id in t.requests
            && (q.path !in s.worker ==> t.requests[id].phase == Rendering)
            && (q.path in s.worker ==>
                  var e := s.worker[q.path].entry;
                  t.requests[id].phase ==
                    if OfManifest(e, q.manifest) && 0 < e.revisionNumber < 0x20_0000_0000_0000
                       && 0 < e.programRevision < 0x20_0000_0000_0000 && 0 < e.cacheRevision < 0x20_0000_0000_0000
                    then Done(Ok(e.body, e.contentType, e.etag)) else Deleting)
  {
  }

  /** The worker cache answers exactly with an entry of the wanted revisions, all of them positive safe integers. Another
      entry is deleted before the rendering. */
  lemma MatchDecides(site: Site, s: Sys, id: nat)
    requires s.mem.Valid() && id in s.requests && s.requests[id].phase == Matching
    ensures var q := s.requests[id];
            var t := Step(site, s, Match(id));
            && id in t.requests
            && (q.path !in s.worker ==> t.requests[id].phase == Rendering)
            && (q.path in s.worker ==>
                  var e := s.worker[q.path].entry;
                  t.requests[id].phase ==
                    if OfManifest(e, q.manifest) && 0 < e.revisionNumber < 0x20_0000_0000_0000
                       && 0 < e.programRevision < 0x20_0000_0000_0000 && 0 < e.cacheRevision < 0x20_0000_0000_0000
                    then Done(Ok(e.body, e.contentType, e.etag)) else Deleting)
  {
    hide MatchWorker, OfManifest;
    MatchWorkerDecides(s, id);
  }
}
