/** How far worker-tier safety reaches: it holds in all runs exactly when the bypass set is large enough for every path that
    invalidations can cover. */
module AgendaMarkLimit {
  import opened Basics
  import opened OrderedMap
  import opened AgendaCache
  import opened AgendaFeed
  import opened AgendaWorkerTier

  /** What an invalidation is called with: an event and the feed paths it lists for it. */
  datatype Notice = Notice(eventId: string, candidates: seq<Path>)

  function Coverable(notices: seq<Notice>): set<Path>
  {
    set n, p | n in notices && p in n.candidates :: p
  }

  ghost predicate Over(events: seq<Event>, notices: seq<Notice>)
  {
    forall e :: e in events && e.Invalidation? ==> Notice(e.eventId, e.candidates) in notices
  }

  /** Every path the site can cache is listed by some invalidation. */
  ghost predicate Listed(site: Site, notices: seq<Notice>)
  {
    forall p, m :: site.served(p, m) && site.render(p, m).Some? ==> p in Coverable(notices)
  }

  /** A settled path's worker-cached response is what its newest change, an accepted write, put there. */
  ghost predicate Safe(s: Sys)
  {
    forall p :: Settled(s, p) && p in s.worker ==>
      p in s.last && s.last[p] == Wrote(s.worker[p].entry, s.worker[p].generation)
  }

  // ---------------------------------------------------------------------------------------------
  // Few paths: every mark fits
  // ---------------------------------------------------------------------------------------------

  lemma {:induction false} DistinctFits(s: seq<Path>, paths: set<Path>)
    requires Distinct(s) && forall p :: p in s ==> p in paths
    ensures |s| <= |paths|
  {
    if s != [] {
      DistinctFits(s[1..], paths - {s[0]});
    }
  }

  /** The memory knows only listed paths. */
  ghost predicate Known(site: Site, s: Sys, paths: set<Path>)
  {
    && s.mem.Valid()
    && (forall p :: p in s.mem.bypassed || p in s.mem.entries.m || p in s.mem.index.m ==> p in paths)
    && RequestsServed(site, s)
  }

  lemma WriteKeepsKnown(site: Site, s: Sys, paths: set<Path>, p: Path, e: Entry, now: int)
    requires Known(site, s, paths) && |s.mem.entries.keys| <= MAX_ENTRIES && p in paths
    ensures Known(site, StoreWrite(s, p, e, now), paths)
  {
    hide AgendaCache.Remember, Without, Distinct;
    if Accepts(s.mem, p, e) {
      RememberKeepsNewEntry(Accepted(s.mem, p, e), p, e, now);
      assert forall q :: q in Without(s.mem.bypassed, p) ==> q in s.mem.bypassed;
    }
  }

  lemma RenderKeepsKnown(site: Site, s: Sys, notices: seq<Notice>, id: nat, now: int)
    requires Listed(site, notices) && Known(site, s, Coverable(notices)) && |s.mem.entries.keys| <= MAX_ENTRIES
    ensures Known(site, RenderFeed(site, s, id, now), Coverable(notices))
  {
    hide StoreWrite, Coverable;
    if id in s.requests && s.requests[id].phase == Rendering {
      var q := s.requests[id];
      var answered := SetPhase(s, id, Done(Fresh(site, q.path, q.manifest)));
      var result := site.render(q.path, q.manifest);
      if result.Some? {
        WriteKeepsKnown(site, answered, Coverable(notices), q.path, EntryFor(site, q.path, q.manifest, result.value, now), now);
      }
    }
  }

  lemma ReadKeepsKnown(site: Site, s: Sys, paths: set<Path>, id: nat, now: int)
    requires Known(site, s, paths)
    ensures Known(site, ReadCache(s, id, now), paths)
  {
    hide ReadMemory;
    if id in s.requests && s.requests[id].phase == Reading {
      ReadOnlyForgets(s.mem, s.requests[id].path, s.requests[id].manifest, now);
    }
  }

  lemma CoveredAreKnown(site: Site, s: Sys, notices: seq<Notice>, n: Notice)
    requires Known(site, s, Coverable(notices)) && n in notices
    ensures forall p :: p in CoveredPaths(s.mem, n.eventId, n.candidates) ==> p in Coverable(notices)
  {
    hide CoveredPaths;
  }

  lemma InvalidationKeepsKnown(site: Site, s: Sys, notices: seq<Notice>, n: Notice, floor: int)
    requires Known(site, s, Coverable(notices)) && n in notices
    ensures Known(site, StepInvalidation(s, n.eventId, n.candidates, floor), Coverable(notices))
  {
    hide Invalidate, CoveredPaths, Coverable;
    InvalidateOnlyForgets(s.mem, n.eventId, n.candidates, floor);
    InvalidateMarks(s.mem, n.eventId, n.candidates, floor);
    CoveredAreKnown(site, s, notices, n);
  }

  lemma OtherStepsKeepKnown(site: Site, s: Sys, paths: set<Path>, e: Event)
    requires Known(site, s, paths) && !e.Read? && !e.Render? && !e.Invalidation?
    ensures Known(site, Step(site, s, e), paths)
  {
    hide StartHead, LandHead, CheckHead, UndoHead, LandDeletion, Evict;
  }

  lemma StepKeepsKnown(site: Site, s: Sys, notices: seq<Notice>, e: Event)
    requires Listed(site, notices) && Known(site, s, Coverable(notices)) && |s.mem.entries.keys| <= MAX_ENTRIES
    requires e.Invalidation? ==> Notice(e.eventId, e.candidates) in notices
    ensures Known(site, Step(site, s, e), Coverable(notices))
  {
    hide ReadCache, RenderFeed, StepInvalidation, StartHead, LandHead, CheckHead, UndoHead, LandDeletion, Evict;
    hide BeginRequest, MatchWorker, DropStale, Known, Coverable, Listed;
    match e
    case Read(id, now) => ReadKeepsKnown(site, s, Coverable(notices), id, now);
    case Render(id, now) => RenderKeepsKnown(site, s, notices, id, now);
    case Invalidation(eventId, candidates, floor) => InvalidationKeepsKnown(site, s, notices, Notice(eventId, candidates), floor);
    case _ => OtherStepsKeepKnown(site, s, Coverable(notices), e);
  }

  lemma {:induction false} KnownHolds(site: Site, events: seq<Event>, notices: seq<Notice>)
    requires Listed(site, notices) && Over(events, notices)
    ensures Known(site, Exec(site, events), Coverable(notices))
  {
    hide Step, Coverable, Listed;
    if events != [] {
      var init := events[..|events| - 1];
      KnownHolds(site, init, notices);
      TierInvariantHolds(site, init);
      StepKeepsKnown(site, Exec(site, init), notices, events[|events| - 1]);
    }
  }

  /** No run over at most 256 coverable paths ever drops a mark. */
  lemma MarksFit(site: Site, events: seq<Event>, notices: seq<Notice>, i: nat)
    requires Listed(site, notices) && Over(events, notices) && |Coverable(notices)| <= MAX_BYPASS_ENTRIES && i < |events|
    ensures BypassFits(Exec(site, events[..i]), events[i])
  {
    hide Coverable, Listed, CoveredPaths, AddAll;
    var s, e := Exec(site, events[..i]), events[i];
    assert Over(events[..i], notices);
    KnownHolds(site, events[..i], notices);
    if e.Invalidation? {
      CoveredAreKnown(site, s, notices, Notice(e.eventId, e.candidates));
      DistinctFits(AddAll(s.mem.bypassed, CoveredPaths(s.mem, e.eventId, e.candidates)), Coverable(notices));
    }
  }

  lemma FewPathsAreSafe(site: Site, events: seq<Event>, notices: seq<Notice>)
    requires Listed(site, notices) && Over(events, notices) && |Coverable(notices)| <= MAX_BYPASS_ENTRIES
    ensures Safe(Exec(site, events))
  {
    hide Coverable, Listed, BypassFits, Exec, Over;
    forall i | 0 <= i < |events| ensures BypassFits(Exec(site, events[..i]), events[i]) {
      MarksFit(site, events, notices, i);
    }
    MarksKeptHolds(site, events);
    var s := Exec(site, events);
    forall p | Settled(s, p) && p in s.worker
      ensures p in s.last && s.last[p] == Wrote(s.worker[p].entry, s.worker[p].generation)
    {
      SettledWorkerHoldsNewestWrite(site, events, p);
    }
  }

  // ---------------------------------------------------------------------------------------------
  // Too many paths: a mark is dropped while its put is under way
  // ---------------------------------------------------------------------------------------------

  /** A write of `e` is being put at a path that was invalidated since. */
  ghost predicate Overtaken(s: Sys, p: Path, e: Entry)
  {
    && Queue(s, p) == [Op(e, 1, Putting)]
    && p in s.last && s.last[p] == Invalidated
    && Level(s.mem.generations, p) > 1
    && |s.mem.bypassed| <= MAX_BYPASS_ENTRIES
  }

  lemma BypassedAfter(s: Sys, n: Notice, floor: int)
    requires s.mem.Valid()
    ensures StepInvalidation(s, n.eventId, n.candidates, floor).mem.bypassed ==
            Newest(AddAll(s.mem.bypassed, CoveredPaths(s.mem, n.eventId, n.candidates)), MAX_BYPASS_ENTRIES)
  {
    hide CoveredPaths, BypassAll, Retain, Newest;
    var forgotten := s.mem.(entries := Retain(s.mem.entries, NotOwnedBy(n.eventId)),
                            index := Retain(Retain(s.mem.index, NotOwnedIn(s.mem.entries.m, n.eventId)),
                                            IndexNotOwnedBy(n.eventId)));
    BypassAllAddsMarks(forgotten, CoveredPaths(s.mem, n.eventId, n.candidates), floor);
  }

  function IndexOf(s: seq<Path>, p: Path): (i: nat)
    requires p in s
    ensures i < |s| && s[i] == p
  {
    if s[0] == p then 0 else 1 + IndexOf(s[1..], p)
  }

  lemma {:induction false} IndexIsUnique(s: seq<Path>, p: Path, i: nat)
    requires Distinct(s) && i < |s| && s[i] == p
    ensures IndexOf(s, p) == i
  {
    if i > 0 {
      assert s[1..][i - 1] == p;
      IndexIsUnique(s[1..], p, i - 1);
    }
  }

  lemma {:induction false} AddAllExtends(s: seq<Path>, ps: seq<Path>)
    ensures s <= AddAll(s, ps)
    decreases |ps|
  {
    if ps != [] {
      AddAllExtends(Add(s, ps[0]), ps[1..]);
    }
  }

  lemma {:induction false} NewestIsSuffix(s: seq<Path>, limit: nat)
    ensures Newest(s, limit) == if |s| <= limit then s else s[|s| - limit..]
  {
    if |s| > limit {
      NewestIsSuffix(s[1..], limit);
    }
  }

  /** How many more marks it takes to drop the mark of `p`, at most. */
  function Room(marks: seq<Path>, p: Path): nat
    requires |marks| <= MAX_BYPASS_ENTRIES && p in marks
  {
    MAX_BYPASS_ENTRIES - |marks| + IndexOf(marks, p)
  }

  /** A covered path that had no mark pushes every older mark towards the end of its life. */
  lemma MarksMoveOn(marks: seq<Path>, covered: seq<Path>, p: Path, q: Path)
    requires Distinct(marks) && |marks| <= MAX_BYPASS_ENTRIES && p in marks && q in covered && q !in marks
    ensures var after := Newest(AddAll(marks, covered), MAX_BYPASS_ENTRIES);
            p in after ==> Room(after, p) < Room(marks, p)
  {
    hide AddAll, Newest, Distinct, IndexOf;
    var all := AddAll(marks, covered);
    var after := Newest(all, MAX_BYPASS_ENTRIES);
    AddAllExtends(marks, covered);
    NewestIsSuffix(all, MAX_BYPASS_ENTRIES);
    assert q in all && |all| > |marks|;
    var i := IndexOf(marks, p);
    assert all[i] == p;
    IndexIsUnique(all, p, i);
    if p in after {
      var j := IndexOf(after, p);
      var dropped := |all| - |after|;
      assert all[dropped + j] == p;
      IndexIsUnique(all, p, dropped + j);
    }
  }

  lemma UnmarkedPath(paths: set<Path>, marks: seq<Path>) returns (q: Path)
    requires |marks| < |paths|
    ensures q in paths && q !in marks
  {
    var marked := set p | p in marks;
    MembersAreFew(marks);
    if paths <= marked {
      SubsetIsSmaller(paths, marked);
    }
    q :| q in paths && q !in marked;
  }

  lemma {:induction false} MembersAreFew(s: seq<Path>)
    ensures |set p | p in s| <= |s|
  {
    if s != [] {
      MembersAreFew(s[1..]);
      assert (set p | p in s) == (set p | p in s[1..]) + {s[0]};
    }
  }

  lemma {:induction false} SubsetIsSmaller(a: set<Path>, b: set<Path>)
    requires a <= b
    ensures |a| <= |b|
  {
    if a != {} {
      var p :| p in a;
      SubsetIsSmaller(a - {p}, b - {p});
    }
  }

  lemma NoticeKeepsOvertaken(site: Site, s: Sys, n: Notice, p: Path, e: Entry)
    requires s.mem.Valid() && Overtaken(s, p, e)
    ensures Overtaken(Step(site, s, Invalidation(n.eventId, n.candidates, 0)), p, e)
  {
    hide StepInvalidation, CoveredPaths, Step, AddAll, Newest;
    InvalidationIsStep(site, s, Invalidation(n.eventId, n.candidates, 0));
    InvalidationMarks(s, n.eventId, n.candidates, 0);
    BypassedAfter(s, n, 0);
  }

  lemma ExecSnoc(site: Site, events: seq<Event>, e: Event)
    ensures Exec(site, events + [e]) == Step(site, Exec(site, events), e)
  {
    assert (events + [e])[..|events + [e]| - 1] == events;
  }

  /** Invalidations of listed paths until the mark of `p` is dropped. */
  lemma {:induction false} DropMark(site: Site, events: seq<Event>, notices: seq<Notice>, p: Path, e: Entry)
    returns (more: seq<Event>)
    requires Over(events, notices) && |Coverable(notices)| > MAX_BYPASS_ENTRIES && Overtaken(Exec(site, events), p, e)
    ensures Over(more, notices) && Overtaken(Exec(site, more), p, e) && p !in Exec(site, more).mem.bypassed
    decreases var marks := Exec(site, events).mem.bypassed; if p in marks then 1 + Room(marks, p) else 0
  {
    hide Step, Exec, Room, CoveredPaths, AddAll, Newest, Distinct;
    var s := Exec(site, events);
    var marks := s.mem.bypassed;
    if p !in marks {
      return events;
    }
    var q := UnmarkedPath(Coverable(notices), marks);
    var n :| n in notices && q in n.candidates;
    var e' := Invalidation(n.eventId, n.candidates, 0);
    ExecSnoc(site, events, e');
    NoticeKeepsOvertaken(site, s, n, p, e);
    InvalidationIsStep(site, s, e');
    BypassedAfter(s, n, 0);
    MarksMoveOn(marks, CoveredPaths(s.mem, n.eventId, n.candidates), p, q);
    more := DropMark(site, events + [e'], notices, p, e);
  }

  lemma InvalidationIsStep(site: Site, s: Sys, e: Event)
    requires s.mem.Valid() && e.Invalidation?
    ensures Step(site, s, e) == StepInvalidation(s, e.eventId, e.candidates, e.floor)
  {
  }

  /** The deletions of the invalidations land. */
  lemma {:induction false} LandDeletions(site: Site, events: seq<Event>, notices: seq<Notice>, p: Path, e: Entry)
    returns (more: seq<Event>)
    requires Over(events, notices) && Overtaken(Exec(site, events), p, e) && p !in Exec(site, events).mem.bypassed
    ensures Over(more, notices) && Overtaken(Exec(site, more), p, e) && p !in Exec(site, more).mem.bypassed
    ensures Deletions(Exec(site, more), p) == 0
    decreases Deletions(Exec(site, events), p)
  {
    hide Exec;
    var s := Exec(site, events);
    if Deletions(s, p) == 0 {
      return events;
    }
    ExecSnoc(site, events, LandInvalidation(p));
    more := LandDeletions(site, events + [LandInvalidation(p)], notices, p, e);
  }

  /** A write whose put has started. */
  function PutUnderWay(p: Path, m: Manifest): seq<Event>
  {
    [Begin(0, p, m, true), Read(0, 0), Match(0), Render(0, 0), StartPut(p)]
  }

  lemma PutStarts(site: Site, p: Path, m: Manifest)
    requires site.served(p, m) && site.render(p, m).Some? && m.cacheRevision >= 0
    ensures var s := Exec(site, PutUnderWay(p, m));
            && Queue(s, p) == [Op(EntryFor(site, p, m, site.render(p, m).value, 0), 1, Putting)]
            && Level(s.mem.generations, p) == 1 && s.mem.bypassed == []
  {
    hide RenderFeed, ReadMemory, StepInvalidation, Exec;
    var run := PutUnderWay(p, m);
    assert run == [Begin(0, p, m, true)] + [Read(0, 0)] + [Match(0)] + [Render(0, 0)] + [StartPut(p)];
    var reading := [Begin(0, p, m, true)] + [Read(0, 0)] + [Match(0)];
    assert Exec(site, reading) == INITIAL.(requests := map[0 := Request(p, m, true, Rendering)]) by {
      ReadMisses(site, p, m);
    }
    ExecSnoc(site, reading, Render(0, 0));
    RenderQueues(site, Exec(site, reading), p, m);
    ExecSnoc(site, reading + [Render(0, 0)], StartPut(p));
  }

  lemma ReadMisses(site: Site, p: Path, m: Manifest)
    requires site.served(p, m)
    ensures Exec(site, [Begin(0, p, m, true)] + [Read(0, 0)] + [Match(0)]) ==
            INITIAL.(requests := map[0 := Request(p, m, true, Rendering)])
  {
    hide ReadMemory, Exec, RenderFeed;
    assert Exec(site, []) == INITIAL by { NothingYet(site); }
    assert [Begin(0, p, m, true)] == [] + [Begin(0, p, m, true)];
    ExecSnoc(site, [], Begin(0, p, m, true));
    ExecSnoc(site, [Begin(0, p, m, true)], Read(0, 0));
    ExecSnoc(site, [Begin(0, p, m, true)] + [Read(0, 0)], Match(0));
    EmptyReadMisses(p, m);
  }

  lemma NothingYet(site: Site)
    ensures Exec(site, []) == INITIAL
  {
  }

  lemma EmptyReadMisses(p: Path, m: Manifest)
    ensures ReadMemory(EMPTY_MEMORY, p, m, 0) == (EMPTY_MEMORY, None)
  {
  }

  lemma RenderQueues(site: Site, s: Sys, p: Path, m: Manifest)
    requires s == INITIAL.(requests := map[0 := Request(p, m, true, Rendering)])
    requires site.render(p, m).Some? && m.cacheRevision >= 0
    ensures var t := Step(site, s, Render(0, 0));
            && Queue(t, p) == [Op(EntryFor(site, p, m, site.render(p, m).value, 0), 1, Queued)]
            && Level(t.mem.generations, p) == 1 && t.mem.bypassed == []
  {
    hide StoreWrite;
    var entry := EntryFor(site, p, m, site.render(p, m).value, 0);
    var answered := SetPhase(s, 0, Done(Fresh(site, p, m)));
    AcceptedWriteEnqueues(answered, p, entry, 0);
  }

  lemma NoticeOvertakes(site: Site, s: Sys, n: Notice, p: Path, e: Entry)
    requires s.mem.Valid() && p in n.candidates
    requires Queue(s, p) == [Op(e, 1, Putting)] && Level(s.mem.generations, p) == 1 && |s.mem.bypassed| <= MAX_BYPASS_ENTRIES
    ensures Overtaken(Step(site, s, Invalidation(n.eventId, n.candidates, 0)), p, e)
  {
    hide StepInvalidation, CoveredPaths, Step, AddAll, Newest;
    InvalidationIsStep(site, s, Invalidation(n.eventId, n.candidates, 0));
    InvalidationMarks(s, n.eventId, n.candidates, 0);
    BypassedAfter(s, n, 0);
  }

  /** The overtaken put lands, finds no mark, and is not undone. */
  lemma OvertakenPutStays(site: Site, s: Sys, p: Path, e: Entry)
    requires s.mem.Valid() && Overtaken(s, p, e) && p !in s.mem.bypassed && Deletions(s, p) == 0
    ensures var t := Step(site, Step(site, s, LandPut(p)), CheckPut(p));
            Settled(t, p) && p in t.worker && p in t.last && t.last[p] == Invalidated
  {
    hide StepInvalidation, RenderFeed, ReadCache;
  }

  /** With more coverable paths than marks, some run leaves an invalidated response in the worker cache for good. */
  lemma ManyPathsAreUnsafe(site: Site, notices: seq<Notice>, p: Path, m: Manifest) returns (events: seq<Event>)
    requires |Coverable(notices)| > MAX_BYPASS_ENTRIES && p in Coverable(notices)
    requires site.served(p, m) && site.render(p, m).Some? && m.cacheRevision >= 0
    ensures Over(events, notices) && !Safe(Exec(site, events))
  {
    hide Exec, Step, Coverable, Overtaken, EntryFor;
    var e := EntryFor(site, p, m, site.render(p, m).value, 0);
    var started := PutUnderWay(p, m);
    PutStarts(site, p, m);
    var n := NoticeOf(notices, p);
    var first := Invalidation(n.eventId, n.candidates, 0);
    ExecSnoc(site, started, first);
    NoticeOvertakes(site, Exec(site, started), n, p, e);
    assert Over(started + [first], notices);
    events := DropMark(site, started + [first], notices, p, e);
    events := LandDeletions(site, events, notices, p, e);
    OvertakenPutStays(site, Exec(site, events), p, e);
    ExecSnoc(site, events, LandPut(p));
    ExecSnoc(site, events + [LandPut(p)], CheckPut(p));
    events := events + [LandPut(p)] + [CheckPut(p)];
  }

  lemma NoticeOf(notices: seq<Notice>, p: Path) returns (n: Notice)
    requires p in Coverable(notices)
    ensures n in notices && p in n.candidates
  {
    n :| n in notices && p in n.candidates;
  }

  /** Over the invalidations a site makes, the worker tier is safe in every run if and only if they can cover at most 256
      paths. The site can cache something, and what it can cache is listed by its invalidations. */
  lemma SafeUpToTheMarkLimit(site: Site, notices: seq<Notice>, p: Path, m: Manifest)
    requires Listed(site, notices)
    requires site.served(p, m) && site.render(p, m).Some? && m.cacheRevision >= 0
    ensures (forall events :: Over(events, notices) ==> Safe(Exec(site, events))) <==>
            |Coverable(notices)| <= MAX_BYPASS_ENTRIES
  {
    hide Exec, Over, Safe, Coverable;
    if |Coverable(notices)| <= MAX_BYPASS_ENTRIES {
      forall events | Over(events, notices) ensures Safe(Exec(site, events)) {
        FewPathsAreSafe(site, events, notices);
      }
    } else {
      var events := ManyPathsAreUnsafe(site, notices, p, m);
    }
  }
}
