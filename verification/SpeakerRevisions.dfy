/** Which renderings the speaker cache stores, told by the run alone. */
module SpeakerRevisions {
  import opened Basics
  import opened OrderedMap
  import opened SpeakerCache
  import opened SpeakerFeed
  import opened SpeakerContents

  ghost function Before(site: Site, events: seq<Event>, k: nat): Sys
    requires k <= |events|
  {
    Exec(site, events[..k])
  }

  /** What a step that renders a cacheable request has to offer for a base path, and under which path. */
  ghost function Offered(site: Site, s: Sys, e: Event, base: Base): Option<(Path, Entry)>
  {
    if e.Render? && e.id in s.requests && s.requests[e.id].phase == Rendering && s.requests[e.id].cacheable
       && s.requests[e.id].base == base && site.render(base, s.requests[e.id].manifest).Some? then
      var m := s.requests[e.id].manifest;
      Some((Path(base, m.revision, m.cacheRevision),
            Entry(site.render(base, m).value, m.revision, m.cacheRevision, e.now + 60_000)))
    else None
  }

  /** Step `k` offered the entry and queued a put for the base path. */
  ghost predicate Stored(site: Site, events: seq<Event>, k: nat, p: Path, e: Entry)
  {
    && k < |events|
    && Offered(site, Before(site, events, k), events[k], p.base) == Some((p, e))
    && |Queue(Before(site, events, k + 1), p.base)| > |Queue(Before(site, events, k), p.base)|
  }

  /** Step `k` is an invalidation of the base path at a cache revision. */
  ghost predicate Invalidated(events: seq<Event>, k: nat, base: Base)
  {
    k < |events| && events[k].Invalidation? && events[k].invalidated == base && events[k].revision.Some?
  }

  ghost predicate SameLatest(s: Sys, t: Sys, base: Base)
  {
    Level(t.mem.latest, base) == Level(s.mem.latest, base) && |Queue(t, base)| <= |Queue(s, base)|
  }

  /** The entry is the one entry of its base path in memory, and its put the last one queued. */
  ghost predicate Kept(s: Sys, t: Sys, p: Path, e: Entry)
  {
    && p in t.mem.entries.m && t.mem.entries.m[p] == e
    && (forall q :: q in t.mem.entries.m && q.base == p.base ==> q == p)
    && Queue(t, p.base) == Queue(s, p.base) + [Put(p, e, Level(s.mem.generations, p.base) + 1, false)]
    && Level(t.mem.generations, p.base) == Level(s.mem.generations, p.base) + 1
    && Level(t.mem.latest, p.base) == e.cacheRevision
  }

  lemma WriteKeeps(m: Memory, p: Path, e: Entry, now: int)
    requires MemoryOk(m) && Matches(e, p) && Level(m.latest, p.base) <= e.cacheRevision
    ensures var t := Write(m, p, e, now).0;
            && p in t.entries.m && t.entries.m[p] == e
            && (forall q :: q in t.entries.m && q.base == p.base ==> q == p)
  {
    hide Write, Retain, EvictOldest;
    WriteAt(m, p, e, now, p);
    forall q | q in Write(m, p, e, now).0.entries.m && q.base == p.base ensures q == p {
      WriteAt(m, p, e, now, q);
    }
    StoredIsThere(m, p, e, now);
  }

  lemma StoredIsThere(m: Memory, p: Path, e: Entry, now: int)
    requires MemoryOk(m) && Matches(e, p) && Level(m.latest, p.base) <= e.cacheRevision
    ensures p in Write(m, p, e, now).0.entries.m
  {
    hide EvictOldest, Retain;
    var kept := Retain(Retain(m.entries, Live(now)), NotOf(p.base));
    assert p !in kept.m;
    var o := Set(kept, p, e);
    assert o.keys == kept.keys + [p];
    EvictionKeepsNewest(o, p);
  }

  lemma StoreAt(s: Sys, p: Path, e: Entry, now: int, base: Base)
    requires MemoryOk(s.mem) && Matches(e, p)
    ensures var t := StoreWrite(s, p, e, now);
            if Level(s.mem.latest, p.base) <= e.cacheRevision
            then Kept(s, t, p, e) && (base != p.base ==> SameLatest(s, t, base))
            else t == s
  {
    hide Write, MemoryOk, Matches;
    assert s.mem.entries.Valid() by { MemoryIsValid(s.mem); }
    WriteLevels(s.mem, p, e, now);
    if Level(s.mem.latest, p.base) <= e.cacheRevision {
      WriteKeeps(s.mem, p, e, now);
    }
  }

  lemma WriteLevels(m: Memory, p: Path, e: Entry, now: int)
    requires m.entries.Valid()
    ensures var (t, generation) := Write(m, p, e, now);
            if Level(m.latest, p.base) <= e.cacheRevision then
              && generation == Some(Level(m.generations, p.base) + 1)
              && t.generations == m.generations[p.base := Level(m.generations, p.base) + 1]
              && t.latest == m.latest[p.base := e.cacheRevision]
            else t == m && generation == None
  {
    hide EvictOldest, Retain;
  }

  lemma RenderAt(site: Site, s: Sys, id: nat, now: int, base: Base)
    requires MemoryOk(s.mem)
    ensures var t, x := RenderSpeakers(site, s, id, now), Offered(site, s, Render(id, now), base);
            if x.Some? && Level(s.mem.latest, base) <= x.value.1.cacheRevision then Kept(s, t, x.value.0, x.value.1)
            else SameLatest(s, t, base)
  {
    hide StoreWrite, Kept, MemoryOk;
    MemoryIsValid(s.mem);
    if id in s.requests && s.requests[id].phase == Rendering {
      var q := s.requests[id];
      var answered := SetPhase(s, id, Done(Fresh(site, q.base, q.manifest)));
      var result := site.render(q.base, q.manifest);
      if result.Some? && q.cacheable {
        var p, e := PathOf(q.base, q.manifest), EntryFor(result.value, q.manifest, now);
        StoreAt(answered, p, e, now, base);
        SameForRequests(s, answered, StoreWrite(answered, p, e, now), p, e);
      }
    }
  }

  lemma SameForRequests(s: Sys, answered: Sys, t: Sys, p: Path, e: Entry)
    requires answered == s.(requests := answered.requests)
    ensures Kept(answered, t, p, e) <==> Kept(s, t, p, e)
  {
  }

  lemma OtherStepAt(site: Site, s: Sys, e: Event, base: Base)
    requires s.mem.entries.Valid() && !e.Render? && !e.Invalidation?
    ensures SameLatest(s, Step(site, s, e), base)
  {
    hide Retain;
  }

  // ---------------------------------------------------------------------------------------------
  // Whole runs
  // ---------------------------------------------------------------------------------------------

  lemma BeforeNext(site: Site, events: seq<Event>, k: nat)
    requires k < |events|
    ensures Before(site, events, k + 1) == Step(site, Before(site, events, k), events[k])
  {
    assert events[..k + 1][..k] == events[..k];
  }

  /** How one step of a run moves the latest revision of a base path. */
  ghost predicate LatestMoves(site: Site, events: seq<Event>, k: nat, base: Base)
    requires k < |events|
  {
    var s, t := Before(site, events, k), Before(site, events, k + 1);
    var x := Offered(site, s, events[k], base);
    if x.Some? && Level(s.mem.latest, base) <= x.value.1.cacheRevision then Kept(s, t, x.value.0, x.value.1)
    else if Invalidated(events, k, base) then
      && |Queue(t, base)| <= |Queue(s, base)|
      && Level(t.mem.latest, base) ==
         if Level(s.mem.latest, base) < events[k].revision.value then events[k].revision.value else Level(s.mem.latest, base)
    else SameLatest(s, t, base)
  }

  lemma EachStepMoves(site: Site, events: seq<Event>, k: nat, base: Base)
    requires k < |events|
    ensures LatestMoves(site, events, k, base)
  {
    hide Kept, Exec, RenderSpeakers, Retain, MemoryOk;
    var s, e := Before(site, events, k), events[k];
    assert MemoryOk(s.mem) by { FeedInvariantHolds(site, events[..k]); }
    BeforeNext(site, events, k);
    if e.Render? {
      RenderAt(site, s, e.id, e.now, base);
    } else if !e.Invalidation? {
      hide Step;
      OtherStepAt(site, s, e, base);
    }
  }

  /** The latest revision before step `n` is the greatest stored or invalidated so far. */
  ghost predicate LatestTells(site: Site, events: seq<Event>, n: nat, base: Base)
    requires n <= |events|
  {
    var latest := Level(Before(site, events, n).mem.latest, base);
    && latest >= 0
    && (forall k: nat, p: Path, e: Entry :: k < n && p.base == base && Stored(site, events, k, p, e) ==> e.cacheRevision <= latest)
    && (forall k: nat :: k < n && Invalidated(events, k, base) ==> events[k].revision.value <= latest)
    && (|| latest == 0
        || (exists k: nat, p: Path, e: Entry ::
              k < n && p.base == base && Stored(site, events, k, p, e) && e.cacheRevision == latest)
        || (exists k: nat :: k < n && Invalidated(events, k, base) && events[k].revision.value == latest))
  }

  lemma LatestFollows(site: Site, events: seq<Event>, n: nat, base: Base)
    requires n < |events| && LatestTells(site, events, n, base) && LatestMoves(site, events, n, base)
    ensures LatestTells(site, events, n + 1, base)
  {
    hide Exec, Before, Offered;
    var s, t := Before(site, events, n), Before(site, events, n + 1);
    var x := Offered(site, s, events[n], base);
    if x.Some? {
      OfferIsUnderBase(site, s, events[n], base);
    }
    if x.Some? && Level(s.mem.latest, base) <= x.value.1.cacheRevision {
      assert Stored(site, events, n, x.value.0, x.value.1);
    } else {
      assert forall p: Path, e: Entry :: p.base == base ==> !Stored(site, events, n, p, e);
    }
  }

  lemma OfferIsUnderBase(site: Site, s: Sys, e: Event, base: Base)
    requires Offered(site, s, e, base).Some?
    ensures Offered(site, s, e, base).value.0.base == base && !e.Invalidation?
  {
  }

  lemma {:induction false} LatestHolds(site: Site, events: seq<Event>, n: nat, base: Base)
    requires n <= |events|
    ensures LatestTells(site, events, n, base)
  {
    hide Exec, Before, Stored, Invalidated, LatestMoves;
    if n == 0 {
      NothingYet(site, events);
    } else {
      LatestHolds(site, events, n - 1, base);
      EachStepMoves(site, events, n - 1, base);
      LatestFollows(site, events, n - 1, base);
    }
  }

  lemma NothingYet(site: Site, events: seq<Event>)
    ensures Before(site, events, 0) == INITIAL
  {
  }

  /** A rendering is stored if and only if its cache revision is not negative and not below any revision stored or
      invalidated at its base path before. Stored, it is the one entry of its base path, and its put the last queued. */
  lemma StoredExactly(site: Site, events: seq<Event>, k: nat, p: Path, e: Entry)
    requires k < |events| && Offered(site, Before(site, events, k), events[k], p.base) == Some((p, e))
    ensures Stored(site, events, k, p, e) <==>
            && e.cacheRevision >= 0
            && (forall j: nat, q: Path, x: Entry :: j < k && q.base == p.base && Stored(site, events, j, q, x) ==>
                  x.cacheRevision <= e.cacheRevision)
            && (forall j: nat :: j < k && Invalidated(events, j, p.base) ==> events[j].revision.value <= e.cacheRevision)
    ensures Stored(site, events, k, p, e) ==> Kept(Before(site, events, k), Before(site, events, k + 1), p, e)
  {
    hide Exec, Before, Offered, Invalidated, Kept;
    LatestHolds(site, events, k, p.base);
    EachStepMoves(site, events, k, p.base);
    OfferIsNoInvalidation(site, events, k, p.base);
    KeptGrows(Before(site, events, k), Before(site, events, k + 1), p, e);
  }

  lemma OfferIsNoInvalidation(site: Site, events: seq<Event>, k: nat, base: Base)
    requires k < |events| && Offered(site, Before(site, events, k), events[k], base).Some?
    ensures !Invalidated(events, k, base)
  {
  }

  lemma KeptGrows(s: Sys, t: Sys, p: Path, e: Entry)
    ensures Kept(s, t, p, e) ==> |Queue(t, p.base)| > |Queue(s, p.base)|
  {
  }

  /** The latest revision of a base path never falls. */
  lemma {:induction false} LatestNeverFalls(site: Site, events: seq<Event>, i: nat, j: nat, base: Base)
    requires i <= j <= |events|
    ensures Level(Before(site, events, i).mem.latest, base) <= Level(Before(site, events, j).mem.latest, base)
    decreases j
  {
    hide Exec, Before, Offered, Invalidated;
    if i < j {
      LatestNeverFalls(site, events, i, j - 1, base);
      EachStepMoves(site, events, j - 1, base);
      if Offered(site, Before(site, events, j - 1), events[j - 1], base).Some? {
        OfferIsUnderBase(site, Before(site, events, j - 1), events[j - 1], base);
      }
    }
  }

  lemma BeforeIsOk(site: Site, events: seq<Event>, k: nat)
    requires k <= |events|
    ensures Before(site, events, k).mem.entries.Valid()
  {
    FeedInvariantHolds(site, events[..k]);
  }

  /** Right after it was stored, an unexpired rendering answers a waiting request for its revisions; an undisturbed put
      leaves it in the worker cache. */
  lemma StoredIsServed(site: Site, events: seq<Event>, k: nat, p: Path, e: Entry, id: nat, now: int)
    requires Stored(site, events, k, p, e) && now < e.expiresAt
    requires var t := Before(site, events, k + 1);
             id in t.requests && t.requests[id].phase == Reading && t.requests[id].base == p.base &&
             t.requests[id].manifest.revision == p.programRevision && t.requests[id].manifest.cacheRevision == p.cacheRevision
    ensures var u := Step(site, Before(site, events, k + 1), Read(id, now));
            id in u.requests && u.requests[id].phase == Done(Ok(e.body, p.programRevision, p.cacheRevision))
  {
    hide Exec, Before, Retain, MemoryOk;
    StoredExactly(site, events, k, p, e);
    BeforeIsOk(site, events, k + 1);
    assert p in Retain(Before(site, events, k + 1).mem.entries, Live(now)).m;
  }

  lemma UndisturbedPutLands(site: Site, events: seq<Event>, k: nat, p: Path, e: Entry)
    requires Stored(site, events, k, p, e) && Queue(Before(site, events, k), p.base) == []
    ensures var u := Step(site, Step(site, Before(site, events, k + 1), StartPut(p.base)), LandPut(p.base));
            Queue(u, p.base) == [] && p in u.worker && u.worker[p] == e
  {
    hide Exec, Before, Offered;
    StoredExactly(site, events, k, p, e);
  }

  /** A request is answered from memory by an unexpired entry of its revisions, else asks the worker cache. */
  lemma ReadDecides(site: Site, s: Sys, id: nat, now: int)
    requires s.mem.entries.Valid() && id in s.requests && s.requests[id].phase == Reading
    ensures var p := Path(s.requests[id].base, s.requests[id].manifest.revision, s.requests[id].manifest.cacheRevision);
            var t := Step(site, s, Read(id, now));
            && id in t.requests
            && t.requests[id].phase ==
                 if p in s.mem.entries.m && now < s.mem.entries.m[p].expiresAt
                    && s.mem.entries.m[p].programRevision == p.programRevision
                    && s.mem.entries.m[p].cacheRevision == p.cacheRevision
                 then Done(Ok(s.mem.entries.m[p].body, p.programRevision, p.cacheRevision)) else Matching
  {
    hide SpeakerCache.ReadMemory;
    ReadServesExactly(s.mem, PathOf(s.requests[id].base, s.requests[id].manifest), now);
  }

  /** The worker cache answers exactly with an entry of the wanted revisions, both of them positive safe integers. */
  lemma MatchDecides(site: Site, s: Sys, id: nat)
    requires s.mem.entries.Valid() && id in s.requests && s.requests[id].phase == Matching
    ensures var p := Path(s.requests[id].base, s.requests[id].manifest.revision, s.requests[id].manifest.cacheRevision);
            var t := Step(site, s, Match(id));
            && id in t.requests
            && t.requests[id].phase ==
                 if p in s.worker && s.worker[p].programRevision == p.programRevision
                    && s.worker[p].cacheRevision == p.cacheRevision
                    && 0 < p.programRevision < 0x20_0000_0000_0000 && 0 < p.cacheRevision < 0x20_0000_0000_0000
                 then Done(Ok(s.worker[p].body, p.programRevision, p.cacheRevision)) else Rendering
  {
  }

  // ---------------------------------------------------------------------------------------------
  // Puts that an invalidation overtook
  // ---------------------------------------------------------------------------------------------

  /** No queued put has a generation beyond the current one. */
  ghost predicate Generated(s: Sys, base: Base)
  {
    forall i :: 0 <= i < |Queue(s, base)| ==> Queue(s, base)[i].generation <= Level(s.mem.generations, base)
  }

  /** The puts of the base path that are under way were under way before, or have a generation from `floor` on. */
  ghost predicate OnlyNewer(started: set<Put>, floor: int, s: Sys, base: Base)
  {
    && floor <= Level(s.mem.generations, base)
    && forall i :: 0 <= i < |Queue(s, base)| && Queue(s, base)[i].started ==>
         Queue(s, base)[i] in started || Queue(s, base)[i].generation >= floor
  }

  /** How a step changes the queue and the generation of a base path. */
  ghost predicate QueueMoves(s: Sys, t: Sys, base: Base)
  {
    var q, r := Queue(s, base), Queue(t, base);
    var g, h := Level(s.mem.generations, base), Level(t.mem.generations, base);
    && g <= h
    && (|| r == q
        || (q != [] && r == q[1..])
        || (q != [] && q[0].generation == g && r == [q[0].(started := true)] + q[1..])
        || (h == g + 1 && |r| == |q| + 1 && r[..|q|] == q && r[|q|].generation == h && !r[|q|].started))
  }

  lemma WriteMoves(m: Memory, p: Path, e: Entry, now: int, base: Base)
    requires m.entries.Valid()
    ensures var (t, generation) := Write(m, p, e, now);
            && Level(t.generations, base) ==
               Level(m.generations, base) + (if generation.Some? && p.base == base then 1 else 0)
            && (generation.Some? ==> generation.value == Level(m.generations, p.base) + 1)
  {
    hide Retain, Distinct, EvictOldest;
  }

  lemma RenderMovesQueue(site: Site, s: Sys, id: nat, now: int, base: Base)
    requires s.mem.entries.Valid() && id in s.requests && s.requests[id].phase == Rendering
    ensures QueueMoves(s, RenderSpeakers(site, s, id, now), base)
  {
    hide Write;
    var q := s.requests[id];
    if site.render(q.base, q.manifest).Some? {
      WriteMoves(s.mem, PathOf(q.base, q.manifest), EntryFor(site.render(q.base, q.manifest).value, q.manifest, now), now, base);
      var t := RenderSpeakers(site, s, id, now);
      var p, e := PathOf(q.base, q.manifest), EntryFor(site.render(q.base, q.manifest).value, q.manifest, now);
      var w := Write(s.mem, p, e, now);
      if q.cacheable && w.1.Some? && q.base == base {
        assert Queue(t, base) == Queue(s, base) + [Put(p, e, w.1.value, false)];
      }
    }
  }

  lemma StepMovesQueue(site: Site, s: Sys, e: Event, base: Base)
    requires s.mem.entries.Valid()
    ensures QueueMoves(s, Step(site, s, e), base)
  {
    hide RenderSpeakers, SpeakerCache.ReadMemory, Retain, Distinct;
    match e
    case Render(id, now) =>
      if id in s.requests && s.requests[id].phase == Rendering {
        RenderMovesQueue(site, s, id, now, base);
      } else {
        RenderWaits(site, s, id, now);
      }
    case Read(id, now) =>
      if id in s.requests {
        ReadKeepsGenerations(s.mem, PathOf(s.requests[id].base, s.requests[id].manifest), now);
      }
    case _ =>
  }

  lemma RenderWaits(site: Site, s: Sys, id: nat, now: int)
    requires s.mem.entries.Valid() && !(id in s.requests && s.requests[id].phase == Rendering)
    ensures RenderSpeakers(site, s, id, now) == s
  {
  }

  lemma ReadKeepsGenerations(m: Memory, p: Path, now: int)
    requires m.entries.Valid()
    ensures ReadMemory(m, p, now).0.generations == m.generations
  {
  }

  lemma MovesKeep(started: set<Put>, floor: int, s: Sys, t: Sys, base: Base)
    requires QueueMoves(s, t, base)
    ensures Generated(s, base) ==> Generated(t, base)
    ensures OnlyNewer(started, floor, s, base) ==> OnlyNewer(started, floor, t, base)
  {
    hide Queue, Level;
  }

  lemma {:induction false} GeneratedHolds(site: Site, events: seq<Event>, base: Base)
    ensures Generated(Exec(site, events), base)
  {
    hide Step, QueueMoves, Generated;
    if events == [] {
      assert Generated(INITIAL, base) by { NothingQueued(base); }
    } else {
      var s := Exec(site, events[..|events| - 1]);
      GeneratedHolds(site, events[..|events| - 1], base);
      StepMovesQueue(site, s, events[|events| - 1], base);
      MovesKeep({}, 0, s, Exec(site, events), base);
    }
  }

  lemma NothingQueued(base: Base)
    ensures Generated(INITIAL, base)
  {
  }

  ghost function Underway(s: Sys, base: Base): set<Put>
  {
    set q | q in Queue(s, base) && q.started
  }

  /** In every run, after an invalidation of a base path the only puts of it that ever get under way are those stored after
      it; whatever was queued before and not yet under way never reaches the worker cache. */
  lemma {:induction false} InvalidationStopsPuts(site: Site, events: seq<Event>, base: Base, revision: Option<int>, more: seq<Event>)
    ensures var s := Exec(site, events);
            var t := Exec(site, events + [Invalidation(base, revision)] + more);
            && OnlyNewer(Underway(s, base), Level(s.mem.generations, base) + 1, t, base)
            && Generated(s, base)
    decreases |more|
  {
    hide Step, QueueMoves, Generated, OnlyNewer, Underway;
    GeneratedHolds(site, events, base);
    var s := Exec(site, events);
    var run := events + [Invalidation(base, revision)] + more;
    var floor := Level(s.mem.generations, base) + 1;
    if more == [] {
      assert run[..|run| - 1] == events && run[|run| - 1] == Invalidation(base, revision);
      InvalidationRaises(site, s, base, revision);
    } else {
      var less := events + [Invalidation(base, revision)] + more[..|more| - 1];
      assert run[..|run| - 1] == less && run[|run| - 1] == more[|more| - 1];
      InvalidationStopsPuts(site, events, base, revision, more[..|more| - 1]);
      StepMovesQueue(site, Exec(site, less), more[|more| - 1], base);
      MovesKeep(Underway(s, base), floor, Exec(site, less), Exec(site, run), base);
    }
  }

  lemma InvalidationRaises(site: Site, s: Sys, base: Base, revision: Option<int>)
    requires s.mem.entries.Valid()
    ensures OnlyNewer(Underway(s, base), Level(s.mem.generations, base) + 1, Step(site, s, Invalidation(base, revision)), base)
  {
    hide Retain, Distinct;
  }
}
