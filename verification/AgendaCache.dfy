/** The in-process tier of the published-agenda cache: bounded, insertion-ordered entries, bypass marks,
    generations and the minimum and latest cache revisions of each path. */
module AgendaCache {
  import opened Basics
  import opened OrderedMap

  datatype Path = Path(url: string)

  const MAX_ENTRIES: nat := 128
  const MAX_BYPASS_ENTRIES: nat := 256

  datatype Manifest = Manifest(eventId: string, projectionId: string, agendaRevisionNumber: int, revision: int,
                               cacheRevision: int)

  datatype Entry = Entry(body: string, contentType: string, etag: string, eventId: string, revisionNumber: int,
                         programRevision: int, cacheRevision: int, expiresAt: int)

  datatype Indexed = Indexed(eventId: string, expiresAt: int)

  /** All the mutable state of the tier. The path index belongs to the isolate; with one isolate and one engine
      it is part of the same state. */
  datatype Memory = Memory(entries: OMap<Path, Entry>, index: OMap<Path, Indexed>, bypassed: seq<Path>,
                           generations: map<Path, int>, minimum: map<Path, int>, latest: map<Path, int>) {

    ghost predicate Valid()
    {
      entries.Valid() && index.Valid() && Distinct(bypassed)
    }
  }

  const EMPTY_MEMORY := Memory(Empty(), Empty(), [], map[], map[], map[])

  function Empty<V>(): (o: OMap<Path, V>)
    ensures o.Valid()
  {
    OMap([], map[])
  }

  function Level(m: map<Path, int>, p: Path): int
  {
    if p in m then m[p] else 0
  }

  function Max(x: int, y: int): int
  {
    if x < y then y else x
  }

  predicate Matches(e: Entry, m: Manifest)
  {
    e.revisionNumber == m.agendaRevisionNumber && e.programRevision == m.revision && e.cacheRevision == m.cacheRevision
  }

  function Live(now: int): (Path, Entry) -> bool
  {
    (p: Path, e: Entry) => now < e.expiresAt
  }

  function IndexLive(now: int): (Path, Indexed) -> bool
  {
    (p: Path, x: Indexed) => now < x.expiresAt
  }

  function NotExpiredIn(entries: map<Path, Entry>, now: int): (Path, Indexed) -> bool
  {
    (p: Path, x: Indexed) => p in entries ==> now < entries[p].expiresAt
  }

  function OwnedBy(eventId: string): (Path, Entry) -> bool
  {
    (p: Path, e: Entry) => e.eventId == eventId
  }

  function NotOwnedBy(eventId: string): (Path, Entry) -> bool
  {
    (p: Path, e: Entry) => e.eventId != eventId
  }

  function IndexOwnedBy(eventId: string): (Path, Indexed) -> bool
  {
    (p: Path, x: Indexed) => x.eventId == eventId
  }

  function IndexNotOwnedBy(eventId: string): (Path, Indexed) -> bool
  {
    (p: Path, x: Indexed) => x.eventId != eventId
  }

  function NotOwnedIn(entries: map<Path, Entry>, eventId: string): (Path, Indexed) -> bool
  {
    (p: Path, x: Indexed) => p in entries ==> entries[p].eventId != eventId
  }

  function Forget(m: Memory, p: Path): (r: Memory)
    ensures m.Valid() ==> r.Valid()
  {
    m.(entries := Delete(m.entries, p), index := Delete(m.index, p))
  }

  function RemoveExpired(m: Memory, now: int): (r: Memory)
    requires m.Valid()
    ensures r.Valid()
  {
    m.(entries := Retain(m.entries, Live(now)), index := Retain(m.index, NotExpiredIn(m.entries.m, now)))
  }

  function EvictOldest(m: Memory): (r: Memory)
    requires m.Valid()
    ensures r.Valid() && |r.entries.keys| <= MAX_ENTRIES
    decreases |m.entries.keys|
  {
    if |m.entries.keys| <= MAX_ENTRIES then m else EvictOldest(Forget(m, m.entries.keys[0]))
  }

  function Remember(m: Memory, p: Path, e: Entry, now: int): (r: Memory)
    requires m.Valid()
    ensures r.Valid()
  {
    var live := RemoveExpired(m.(index := Retain(m.index, IndexLive(now))), now);
    EvictOldest(live.(entries := Set(live.entries, p, e),
                       index := Set(live.index, p, Indexed(e.eventId, e.expiresAt))))
  }

  /** The part of a read that precedes the first await: the entry served from memory, if any. */
  function ReadMemory(m: Memory, p: Path, wanted: Manifest, now: int): (r: (Memory, Option<Entry>))
    requires m.Valid()
    ensures r.0.Valid()
  {
    var live := RemoveExpired(m, now);
    if p in m.bypassed || p !in live.entries.m then (live, None)
    else if Matches(live.entries.m[p], wanted) then (live, Some(live.entries.m[p]))
    else (Forget(live, p), None)
  }

  predicate Accepts(m: Memory, p: Path, e: Entry)
  {
    Level(m.minimum, p) <= e.cacheRevision && Level(m.latest, p) <= e.cacheRevision
  }

  function Accepted(m: Memory, p: Path, e: Entry): (r: Memory)
    ensures m.Valid() ==> r.Valid()
  {
    m.(latest := m.latest[p := e.cacheRevision], generations := m.generations[p := Level(m.generations, p) + 1],
       bypassed := Without(m.bypassed, p))
  }

  /** The memory after a write and the generation of the put it schedules, if the write is accepted. */
  function Write(m: Memory, p: Path, e: Entry, now: int): (r: (Memory, Option<int>))
    requires m.Valid()
    ensures r.0.Valid()
  {
    if !Accepts(m, p, e) then (m, None)
    else
      (Remember(Accepted(m, p, e), p, e, now), Some(Level(m.generations, p) + 1))
  }

  /** The paths an invalidation covers: the event's cached paths, its candidate feed paths, its indexed paths. */
  function CoveredPaths(m: Memory, eventId: string, candidates: seq<Path>): (r: seq<Path>)
    requires m.Valid()
    ensures Distinct(r)
    ensures forall p :: p in candidates ==> p in r
    ensures forall p :: p in r <==>
                        || p in candidates
                        || (p in m.entries.m && m.entries.m[p].eventId == eventId)
                        || (p in m.index.m && m.index.m[p].eventId == eventId)
  {
    var cached := AddMatching([], m.entries.keys, m.entries.m, OwnedBy(eventId));
    var index := Retain(m.index, NotOwnedIn(m.entries.m, eventId));
    AddMatching(AddAll(cached, candidates), index.keys, index.m, IndexOwnedBy(eventId))
  }

  function BypassPath(m: Memory, p: Path, floor: int): Memory
  {
    m.(bypassed := Add(m.bypassed, p), generations := m.generations[p := Level(m.generations, p) + 1],
       minimum := m.minimum[p := Max(Level(m.minimum, p), floor)])
  }

  function BypassAll(m: Memory, ps: seq<Path>, revision: int): (r: Memory)
    ensures m.Valid() ==> r.Valid()
    decreases |ps|
  {
    if ps == [] then m else BypassAll(BypassPath(m, ps[0], revision), ps[1..], revision)
  }

  lemma BypassAllLevels(m: Memory, ps: seq<Path>, revision: int)
    requires Distinct(ps)
    ensures var r := BypassAll(m, ps, revision);
            && r.entries == m.entries && r.index == m.index && r.latest == m.latest
            && (forall p :: p in r.bypassed <==> p in m.bypassed || p in ps)
            && (forall p :: Level(r.generations, p) == Level(m.generations, p) + if p in ps then 1 else 0)
            && (forall p :: Level(r.minimum, p) ==
                            if p in ps then Max(Level(m.minimum, p), revision) else Level(m.minimum, p))
    decreases |ps|
  {
    if ps != [] {
      BypassAllLevels(BypassPath(m, ps[0], revision), ps[1..], revision);
    }
  }

  function Invalidate(m: Memory, eventId: string, candidates: seq<Path>, revision: int): (r: (Memory, seq<Path>))
    requires m.Valid()
    ensures r.0.Valid()
  {
    var paths := CoveredPaths(m, eventId, candidates);
    var forgotten := m.(entries := Retain(m.entries, NotOwnedBy(eventId)),
                        index := Retain(Retain(m.index, NotOwnedIn(m.entries.m, eventId)), IndexNotOwnedBy(eventId)));
    var marked := BypassAll(forgotten, paths, revision);
    (marked.(bypassed := Newest(marked.bypassed, MAX_BYPASS_ENTRIES)), paths)
  }

  // ---------------------------------------------------------------------------------------------
  // What every operation keeps
  // ---------------------------------------------------------------------------------------------

  /** `owner` names the event a path belongs to. */
  ghost predicate Invariant(m: Memory, owner: Path -> string)
  {
    && m.Valid()
    && |m.entries.keys| <= MAX_ENTRIES
    && |m.bypassed| <= MAX_BYPASS_ENTRIES
    && (forall p :: p in m.index.m ==> m.index.m[p].eventId == owner(p))
    && (forall p :: p in m.entries.m ==> EntryOk(m, owner, p))
  }

  ghost predicate EntryOk(m: Memory, owner: Path -> string, p: Path)
    requires p in m.entries.m
  {
    && m.entries.m[p].eventId == owner(p)
    && p !in m.bypassed
    && m.entries.m[p].cacheRevision == Level(m.latest, p)
    && Level(m.minimum, p) <= m.entries.m[p].cacheRevision
  }

  lemma EvictionKeepsNewest(m: Memory, p: Path)
    requires m.Valid() && |m.entries.keys| <= MAX_ENTRIES + 1
    requires p in m.entries.m
    requires |m.entries.keys| == MAX_ENTRIES + 1 ==> m.entries.keys[MAX_ENTRIES] == p
    ensures var r := EvictOldest(m);
            && p in r.entries.m && r.entries.m[p] == m.entries.m[p]
            && (forall q :: q in r.entries.m ==> q in m.entries.m && r.entries.m[q] == m.entries.m[q])
            && (forall q :: q in r.index.m ==> q in m.index.m && r.index.m[q] == m.index.m[q])
            && r == m.(entries := r.entries, index := r.index)
  {
    if |m.entries.keys| > MAX_ENTRIES {
      var oldest := m.entries.keys[0];
      assert p in m.entries.keys[1..] by { assert m.entries.keys[1..][MAX_ENTRIES - 1] == p; }
      assert oldest != p;
      var r := Forget(m, oldest);
      assert EvictOldest(m) == EvictOldest(r) == r;
    }
  }

  /** `r` is `m` with entry `e` at path `p`, apart from other entries that expired or were evicted. */
  ghost predicate Remembered(m: Memory, r: Memory, p: Path, e: Entry)
  {
    && r.Valid()
    && p in r.entries.m && r.entries.m[p] == e
    && |r.entries.keys| <= MAX_ENTRIES
    && (forall q :: q in r.entries.m && q != p ==> q in m.entries.m && r.entries.m[q] == m.entries.m[q])
    && (forall q :: q in r.index.m && q != p ==> q in m.index.m && r.index.m[q] == m.index.m[q])
    && (p in r.index.m ==> r.index.m[p] == Indexed(e.eventId, e.expiresAt))
    && r.bypassed == m.bypassed && r.generations == m.generations
    && r.minimum == m.minimum && r.latest == m.latest
  }

  /** The entry just written survives the eviction its own insertion may cause. */
  lemma RememberKeepsNewEntry(m: Memory, p: Path, e: Entry, now: int)
    requires m.Valid() && |m.entries.keys| <= MAX_ENTRIES
    ensures Remembered(m, Remember(m, p, e, now), p, e)
  {
    var live := RemoveExpired(m.(index := Retain(m.index, IndexLive(now))), now);
    var inserted := live.(entries := Set(live.entries, p, e),
                          index := Set(live.index, p, Indexed(e.eventId, e.expiresAt)));
    EvictionKeepsNewest(inserted, p);
  }

  lemma RememberedKeepsInvariant(m: Memory, r: Memory, p: Path, e: Entry, owner: Path -> string)
    requires Invariant(m, owner) && e.eventId == owner(p) && Accepts(m, p, e)
    requires Remembered(Accepted(m, p, e), r, p, e)
    ensures Invariant(r, owner)
  {
    forall q | q in r.entries.m ensures EntryOk(r, owner, q) {
      if q != p {
        assert EntryOk(m, owner, q);
      }
    }
  }

  lemma WriteKeepsInvariant(m: Memory, p: Path, e: Entry, now: int, owner: Path -> string)
    requires Invariant(m, owner) && e.eventId == owner(p)
    ensures Invariant(Write(m, p, e, now).0, owner)
    ensures Accepts(m, p, e) ==>
              && Write(m, p, e, now).1 == Some(Level(m.generations, p) + 1)
              && Remembered(Accepted(m, p, e), Write(m, p, e, now).0, p, e)
    ensures !Accepts(m, p, e) ==> Write(m, p, e, now) == (m, None)
  {
    hide Remember;
    if Accepts(m, p, e) {
      RememberKeepsNewEntry(Accepted(m, p, e), p, e, now);
      RememberedKeepsInvariant(m, Remember(Accepted(m, p, e), p, e, now), p, e, owner);
    }
  }

  /** `r` is `m` without some entries. */
  ghost predicate Forgets(m: Memory, r: Memory)
  {
    && r.Valid() && |r.entries.keys| <= |m.entries.keys|
    && r == m.(entries := r.entries, index := r.index)
    && (forall q :: q in r.entries.m ==> q in m.entries.m && r.entries.m[q] == m.entries.m[q])
    && (forall q :: q in r.index.m ==> q in m.index.m && r.index.m[q] == m.index.m[q])
  }

  lemma InvalidateOnlyForgets(m: Memory, eventId: string, candidates: seq<Path>, floor: int)
    requires m.Valid()
    ensures var r := Invalidate(m, eventId, candidates, floor).0;
            && |r.entries.keys| <= |m.entries.keys| && |r.bypassed| <= MAX_BYPASS_ENTRIES && r.latest == m.latest
            && (forall q :: q in r.entries.m ==>
                  q in m.entries.m && r.entries.m[q] == m.entries.m[q] && m.entries.m[q].eventId != eventId)
            && (forall q :: q in r.index.m ==> q in m.index.m && r.index.m[q] == m.index.m[q])
  {
    hide CoveredPaths, BypassAll, Newest;
    var forgotten := m.(entries := Retain(m.entries, NotOwnedBy(eventId)),
                        index := Retain(Retain(m.index, NotOwnedIn(m.entries.m, eventId)), IndexNotOwnedBy(eventId)));
    BypassAllLevels(forgotten, CoveredPaths(m, eventId, candidates), floor);
  }

  lemma InvalidateMarks(m: Memory, eventId: string, candidates: seq<Path>, floor: int)
    requires m.Valid()
    ensures var (r, paths) := Invalidate(m, eventId, candidates, floor);
            && paths == CoveredPaths(m, eventId, candidates)
            && (forall p :: Level(r.generations, p) == Level(m.generations, p) + if p in paths then 1 else 0)
            && (forall p :: Level(r.minimum, p) ==
                            if p in paths then Max(Level(m.minimum, p), floor) else Level(m.minimum, p))
            && (forall p :: p in r.bypassed ==> p in m.bypassed || p in paths)
  {
    hide CoveredPaths, BypassAll, Retain, Newest;
    var paths := CoveredPaths(m, eventId, candidates);
    var forgotten := m.(entries := Retain(m.entries, NotOwnedBy(eventId)),
                        index := Retain(Retain(m.index, NotOwnedIn(m.entries.m, eventId)), IndexNotOwnedBy(eventId)));
    BypassAllLevels(forgotten, paths, floor);
  }

  lemma InvalidateKeepsInvariant(m: Memory, eventId: string, candidates: seq<Path>, floor: int, owner: Path -> string)
    requires Invariant(m, owner) && forall p :: p in candidates ==> owner(p) == eventId
    ensures Invariant(Invalidate(m, eventId, candidates, floor).0, owner)
    ensures forall p :: p in Invalidate(m, eventId, candidates, floor).1 ==>
                          p !in Invalidate(m, eventId, candidates, floor).0.entries.m
  {
    hide Invalidate;
    var (r, paths) := Invalidate(m, eventId, candidates, floor);
    InvalidateOnlyForgets(m, eventId, candidates, floor);
    InvalidateMarks(m, eventId, candidates, floor);
    forall p | p in r.entries.m ensures EntryOk(r, owner, p) && p !in paths {
      assert EntryOk(m, owner, p);
    }
  }

  /** A read only forgets entries, and serves an unexpired one that matches the wanted manifest. */
  lemma ReadOnlyForgets(m: Memory, p: Path, wanted: Manifest, now: int)
    requires m.Valid()
    ensures var (r, hit) := ReadMemory(m, p, wanted, now);
            && Forgets(m, r)
            && (hit.Some? ==> p in m.entries.m && hit.value == m.entries.m[p] && Matches(hit.value, wanted)
                              && now < hit.value.expiresAt)
  {
    hide RemoveExpired, Forget;
    var live := RemoveExpired(m, now);
    ExpiryForgets(m, now);
    if p in live.entries.m {
      ForgetForgets(live, p);
    }
  }

  lemma ExpiryForgets(m: Memory, now: int)
    requires m.Valid()
    ensures Forgets(m, RemoveExpired(m, now))
    ensures forall q :: q in RemoveExpired(m, now).entries.m ==> now < m.entries.m[q].expiresAt
  {
    hide Retain, Distinct;
  }

  lemma ForgetForgets(m: Memory, p: Path)
    requires m.Valid()
    ensures Forgets(m, Forget(m, p))
  {
    hide Without, Distinct;
  }

  lemma ReadKeepsInvariant(m: Memory, p: Path, wanted: Manifest, now: int, owner: Path -> string)
    requires Invariant(m, owner)
    ensures Invariant(ReadMemory(m, p, wanted, now).0, owner)
  {
    hide ReadMemory;
    ReadOnlyForgets(m, p, wanted, now);
  }
}
