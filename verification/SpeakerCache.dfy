/** The published-speaker cache: a bounded memory tier and an asynchronous worker tier, both keyed by the base path and the
    revisions of the manifest a response was rendered for. */
module SpeakerCache {
  import opened Basics
  import opened OrderedMap

  datatype Base = Base(pathname: string)

  /** The cache path of a manifest: its revisions are part of it. */
  datatype Path = Path(base: Base, programRevision: int, cacheRevision: int)

  datatype Manifest = Manifest(revision: int, cacheRevision: int, projection: string)

  datatype Entry = Entry(body: string, programRevision: int, cacheRevision: int, expiresAt: int)

  datatype Memory = Memory(entries: OMap<Path, Entry>, generations: map<Base, int>, latest: map<Base, int>)

  const EMPTY := Memory(OMap([], map[]), map[], map[])
  const MAX_ENTRIES: nat := 128
  const TTL_MS := 60_000
  const MAX_SAFE_INTEGER := 9007199254740991

  function Level(levels: map<Base, int>, base: Base): int
  {
    if base in levels then levels[base] else 0
  }

  function Live(now: int): (Path, Entry) -> bool
  {
    (_, e: Entry) => e.expiresAt > now
  }

  function NotOf(base: Base): (Path, Entry) -> bool
  {
    (p: Path, _) => p.base != base
  }

  function PathOf(base: Base, m: Manifest): Path
  {
    Path(base, m.revision, m.cacheRevision)
  }

  predicate Matches(e: Entry, p: Path)
  {
    e.programRevision == p.programRevision && e.cacheRevision == p.cacheRevision
  }

  function EvictOldest(o: OMap<Path, Entry>): (r: OMap<Path, Entry>)
    requires o.Valid()
    ensures r.Valid() && |r.keys| <= MAX_ENTRIES
    ensures forall p :: p in r.m ==> p in o.m && r.m[p] == o.m[p]
    decreases |o.keys|
  {
    if |o.keys| <= MAX_ENTRIES then o else EvictOldest(Delete(o, o.keys[0]))
  }

  // ---------------------------------------------------------------------------------------------
  // The memory tier
  // ---------------------------------------------------------------------------------------------

  function ReadMemory(m: Memory, p: Path, now: int): (Memory, Option<Entry>)
    requires m.entries.Valid()
  {
    var entries := Retain(m.entries, Live(now));
    (m.(entries := entries), if p in entries.m && Matches(entries.m[p], p) then Some(entries.m[p]) else None)
  }

  predicate Accepts(m: Memory, p: Path, e: Entry)
  {
    Level(m.latest, p.base) <= e.cacheRevision
  }

  /** Stores a rendering unless a newer cache revision is known, and the generation its worker put must still find. */
  function Write(m: Memory, p: Path, e: Entry, now: int): (Memory, Option<int>)
    requires m.entries.Valid()
  {
    if !Accepts(m, p, e) then (m, None)
    else
      var generation := Level(m.generations, p.base) + 1;
      var kept := Retain(Retain(m.entries, Live(now)), NotOf(p.base));
      (Memory(EvictOldest(Set(kept, p, e)), m.generations[p.base := generation], m.latest[p.base := e.cacheRevision]),
       Some(generation))
  }

  function Max(a: int, b: int): int
  {
    if a >= b then a else b
  }

  /** `revision` is the cache revision of the invalidation where it is a positive safe integer. */
  function Invalidate(m: Memory, base: Base, revision: Option<int>): Memory
    requires m.entries.Valid()
  {
    Memory(Retain(m.entries, NotOf(base)), m.generations[base := Level(m.generations, base) + 1],
           if revision.Some? then m.latest[base := Max(Level(m.latest, base), revision.value)] else m.latest)
  }

  /** At most 128 entries; one of a base path at most; each under its own revisions and at the latest cache revision. */
  ghost predicate MemoryOk(m: Memory)
  {
    && m.entries.Valid()
    && |m.entries.keys| <= MAX_ENTRIES
    && (forall p :: p in m.entries.m ==> Matches(m.entries.m[p], p) && Level(m.latest, p.base) == p.cacheRevision)
    && (forall p, q :: p in m.entries.m && q in m.entries.m && p.base == q.base ==> p == q)
  }

  lemma ReadKeepsMemory(m: Memory, p: Path, now: int)
    requires MemoryOk(m)
    ensures MemoryOk(ReadMemory(m, p, now).0)
  {
  }

  lemma InvalidateKeepsMemory(m: Memory, base: Base, revision: Option<int>)
    requires MemoryOk(m)
    ensures MemoryOk(Invalidate(m, base, revision))
    ensures forall p :: p in Invalidate(m, base, revision).entries.m ==> p.base != base
  {
  }

  /** What an accepted write leaves at one path. */
  lemma WriteAt(m: Memory, p: Path, e: Entry, now: int, q: Path)
    requires m.entries.Valid() && Accepts(m, p, e)
    ensures var t := Write(m, p, e, now).0;
            && t.entries.Valid() && |t.entries.keys| <= MAX_ENTRIES
            && t.latest == m.latest[p.base := e.cacheRevision]
            && (q in t.entries.m ==>
                  if q == p then t.entries.m[q] == e
                  else q.base != p.base && q in m.entries.m && t.entries.m[q] == m.entries.m[q])
  {
    hide EvictOldest, Retain, Set, Distinct;
    var kept := Retain(Retain(m.entries, Live(now)), NotOf(p.base));
    assert Set(kept, p, e).m == kept.m[p := e];
  }

  lemma WriteKeepsMemory(m: Memory, p: Path, e: Entry, now: int)
    requires MemoryOk(m) && Matches(e, p)
    ensures MemoryOk(Write(m, p, e, now).0)
    ensures OnlyAdds(m, Write(m, p, e, now).0, p, e)
  {
    hide Matches, MemoryOk;
    if Accepts(m, p, e) {
      assert m.entries.Valid() by { MemoryIsValid(m); }
      AcceptedKeepsMemory(m, Write(m, p, e, now).0, p, e, now);
    }
  }

  lemma MemoryIsValid(m: Memory)
    requires MemoryOk(m)
    ensures m.entries.Valid()
  {
  }

  /** Every entry is the given one or was there before. */
  ghost predicate OnlyAdds(m: Memory, t: Memory, p: Path, e: Entry)
  {
    forall q :: q in t.entries.m ==>
      (q == p && t.entries.m[q] == e) || (q in m.entries.m && t.entries.m[q] == m.entries.m[q])
  }

  lemma AcceptedKeepsMemory(m: Memory, t: Memory, p: Path, e: Entry, now: int)
    requires MemoryOk(m) && Matches(e, p) && Accepts(m, p, e) && t == Write(m, p, e, now).0
    ensures MemoryOk(t) && OnlyAdds(m, t, p, e)
  {
    hide Write, Distinct;
    WriteAt(m, p, e, now, p);
    forall q | q in t.entries.m
      ensures if q == p then t.entries.m[q] == e
              else q.base != p.base && q in m.entries.m && t.entries.m[q] == m.entries.m[q]
    {
      WriteAt(m, p, e, now, q);
    }
  }

  /** A new entry survives its own eviction. */
  lemma WriteIsRead(m: Memory, p: Path, e: Entry, now: int)
    requires MemoryOk(m) && Matches(e, p) && Accepts(m, p, e) && now < e.expiresAt
    ensures ReadMemory(Write(m, p, e, now).0, p, now).1 == Some(e)
  {
    hide EvictOldest, Retain;
    var kept := Retain(Retain(m.entries, Live(now)), NotOf(p.base));
    assert p !in kept.m && |kept.keys| <= MAX_ENTRIES;
    var o := Set(kept, p, e);
    assert o.keys == kept.keys + [p];
    EvictionKeepsNewest(o, p);
  }

  lemma {:induction false} EvictionKeepsNewest(o: OMap<Path, Entry>, p: Path)
    requires o.Valid() && o.keys != [] && o.keys[|o.keys| - 1] == p
    ensures p in EvictOldest(o).m
    decreases |o.keys|
  {
    if |o.keys| > MAX_ENTRIES {
      EvictionKeepsNewest(Delete(o, o.keys[0]), p);
    } else {
      assert p in o.keys;
    }
  }

  // ---------------------------------------------------------------------------------------------
  // The memory object
  // ---------------------------------------------------------------------------------------------

  class SpeakerCacheState {
    var entries: OMap<Path, Entry>
    var generations: map<Base, int>
    var latestRevisions: map<Base, int>

    constructor ()
      ensures Mem() == EMPTY && MemoryOk(Mem())
    {
      entries := OMap([], map[]);
      generations := map[];
      latestRevisions := map[];
    }

    ghost function Mem(): Memory
      reads this
    {
      Memory(entries, generations, latestRevisions)
    }

    method ReadSpeakerCache(path: Path, now: int) returns (hit: Option<Entry>)
      requires Mem().entries.Valid()
      modifies this`entries
      ensures (Mem(), hit) == ReadMemory(old(Mem()), path, now)
    {
      hide Retain, Distinct;
      entries := DeleteUnless(entries, Live(now));
      hit := if path in entries.m && Matches(entries.m[path], path) then Some(entries.m[path]) else None;
    }

    method WriteSpeakerCache(path: Path, entry: Entry, now: int) returns (generation: Option<int>)
      requires Mem().entries.Valid()
      modifies this
      ensures (Mem(), generation) == Write(old(Mem()), path, entry, now)
    {
      hide Retain, Distinct, Set, EvictOldest;
      if Level(latestRevisions, path.base) > entry.cacheRevision {
        return None;
      }
      latestRevisions := latestRevisions[path.base := entry.cacheRevision];
      generation := Some(Level(generations, path.base) + 1);
      generations := generations[path.base := generation.value];
      entries := DeleteUnless(entries, Live(now));
      entries := DeleteUnless(entries, NotOf(path.base));
      entries := Set(entries, path, entry);
      assert entries == Set(Retain(Retain(old(entries), Live(now)), NotOf(path.base)), path, entry);
      EvictEntries();
    }

    method EvictEntries()
      requires entries.Valid()
      modifies this`entries
      ensures entries == EvictOldest(old(entries))
    {
      while |entries.keys| > MAX_ENTRIES
        invariant entries.Valid() && EvictOldest(entries) == EvictOldest(old(entries))
        decreases |entries.keys|
      {
        entries := Delete(entries, entries.keys[0]);
      }
    }

    method InvalidateSpeakerCache(base: Base, revision: Option<int>)
      requires Mem().entries.Valid()
      modifies this
      ensures Mem() == Invalidate(old(Mem()), base, revision)
    {
      hide Retain, Distinct;
      generations := generations[base := Level(generations, base) + 1];
      if revision.Some? {
        latestRevisions := latestRevisions[base := Max(Level(latestRevisions, base), revision.value)];
      }
      entries := DeleteUnless(entries, NotOf(base));
    }
  }
}
