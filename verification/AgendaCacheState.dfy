/** The mutable tier itself: every operation takes the memory to what its specification function says. */
module AgendaCacheTier {
  import opened Basics
  import opened OrderedMap
  import opened AgendaCache

  class AgendaCacheState {
    var entries: OMap<Path, Entry>
    var index: OMap<Path, Indexed>
    var bypassed: seq<Path>
    var generations: map<Path, int>
    var minimum: map<Path, int>
    var latest: map<Path, int>

    ghost function Mem(): Memory
      reads this
    {
      Memory(entries, index, bypassed, generations, minimum, latest)
    }

    constructor ()
      ensures Mem() == EMPTY_MEMORY && Mem().Valid()
    {
      entries, index, bypassed := OMap([], map[]), OMap([], map[]), [];
      generations, minimum, latest := map[], map[], map[];
    }

    method RemoveExpired(now: int)
      requires Mem().Valid()
      modifies `entries, `index
      ensures Mem() == AgendaCache.RemoveExpired(old(Mem()), now)
    {
      index := DeleteUnless(index, NotExpiredIn(entries.m, now));
      entries := DeleteUnless(entries, Live(now));
    }

    method Remember(path: Path, entry: Entry, now: int)
      requires Mem().Valid()
      modifies `entries, `index
      ensures Mem() == AgendaCache.Remember(old(Mem()), path, entry, now)
    {
      hide Retain, Without, Distinct;
      index := DeleteUnless(index, IndexLive(now));
      RemoveExpired(now);
      entries := Set(entries, path, entry);
      index := Set(index, path, Indexed(entry.eventId, entry.expiresAt));
      while |entries.keys| > MAX_ENTRIES
        invariant Mem().Valid()
        invariant EvictOldest(Mem()) == AgendaCache.Remember(old(Mem()), path, entry, now)
        decreases |entries.keys|
      {
        var oldest := entries.keys[0];
        index := Delete(index, oldest);
        entries := Delete(entries, oldest);
      }
    }

    method Read(path: Path, wanted: Manifest, now: int) returns (hit: Option<Entry>)
      requires Mem().Valid()
      modifies `entries, `index
      ensures (Mem(), hit) == ReadMemory(old(Mem()), path, wanted, now)
    {
      hide Retain, Without, Distinct;
      RemoveExpired(now);
      if path in bypassed || path !in entries.m {
        return None;
      }
      if Matches(entries.m[path], wanted) {
        return Some(entries.m[path]);
      }
      entries := Delete(entries, path);
      index := Delete(index, path);
      hit := None;
    }

    method Write(path: Path, entry: Entry, now: int) returns (generation: Option<int>)
      requires Mem().Valid()
      modifies this
      ensures (Mem(), generation) == AgendaCache.Write(old(Mem()), path, entry, now)
    {
      hide AgendaCache.Remember, Without, Distinct;
      if Level(minimum, path) > entry.cacheRevision || Level(latest, path) > entry.cacheRevision {
        return None;
      }
      latest := latest[path := entry.cacheRevision];
      generation := Some(Level(generations, path) + 1);
      generations := generations[path := Level(generations, path) + 1];
      bypassed := Without(bypassed, path);
      Remember(path, entry, now);
    }

    /** Collects, and deletes from the map, the cached paths of an event. */
    method ForgetEvent(eventId: string) returns (paths: seq<Path>)
      requires Mem().Valid()
      modifies `entries, `index
      ensures paths == AddMatching([], old(entries.keys), old(entries.m), OwnedBy(eventId))
      ensures entries == Retain(old(entries), NotOwnedBy(eventId))
      ensures index == Retain(old(index), NotOwnedIn(old(entries.m), eventId))
    {
      var keys, m := entries.keys, entries.m;
      paths := [];
      for i := 0 to |keys|
        invariant entries == old(entries) && index == old(index)
        invariant AddMatching(paths, keys[i..], m, OwnedBy(eventId)) == AddMatching([], keys, m, OwnedBy(eventId))
      {
        assert keys[i..][1..] == keys[i + 1..];
        if keys[i] in m && m[keys[i]].eventId == eventId {
          paths := Add(paths, keys[i]);
        }
      }
      index := DeleteUnless(index, NotOwnedIn(entries.m, eventId));
      entries := DeleteUnless(entries, NotOwnedBy(eventId));
    }

    /** Marks every path: bypassed, next generation, raised minimum revision. */
    method BypassPaths(paths: seq<Path>, floor: int)
      modifies `bypassed, `generations, `minimum
      ensures Mem() == BypassAll(old(Mem()), paths, floor)
    {
      hide Add, Distinct;
      for i := 0 to |paths|
        invariant entries == old(entries) && index == old(index) && latest == old(latest)
        invariant BypassAll(Mem(), paths[i..], floor) == BypassAll(old(Mem()), paths, floor)
      {
        ghost var rest, before := paths[i..], Mem();
        assert rest[0] == paths[i] && rest[1..] == paths[i + 1..];
        var path := paths[i];
        bypassed := Add(bypassed, path);
        generations := generations[path := Level(generations, path) + 1];
        minimum := minimum[path := Max(Level(minimum, path), floor)];
        assert Mem() == BypassPath(before, path, floor);
      }
    }

    method TrimBypassed()
      modifies `bypassed
      ensures bypassed == Newest(old(bypassed), MAX_BYPASS_ENTRIES)
    {
      while |bypassed| > MAX_BYPASS_ENTRIES
        invariant Newest(bypassed, MAX_BYPASS_ENTRIES) == Newest(old(bypassed), MAX_BYPASS_ENTRIES)
        decreases |bypassed|
      {
        bypassed := bypassed[1..];
      }
    }

    method Invalidate(eventId: string, candidates: seq<Path>, floor: int) returns (paths: seq<Path>)
      requires Mem().Valid()
      modifies this
      ensures (Mem(), paths) == AgendaCache.Invalidate(old(Mem()), eventId, candidates, floor)
    {
      hide Retain, AddMatching, Add, BypassAll, Newest, Distinct;
      var cached := ForgetEvent(eventId);
      paths := cached;
      for i := 0 to |candidates|
        invariant AddAll(paths, candidates[i..]) == AddAll(cached, candidates)
      {
        assert candidates[i..][1..] == candidates[i + 1..];
        paths := Add(paths, candidates[i]);
      }
      paths := AddMatching(paths, index.keys, index.m, IndexOwnedBy(eventId));
      index := DeleteUnless(index, IndexNotOwnedBy(eventId));
      assert paths == CoveredPaths(old(Mem()), eventId, candidates);
      ghost var forgotten := Mem();
      BypassPaths(paths, floor);
      ghost var marked := Mem();
      assert marked == BypassAll(forgotten, paths, floor);
      TrimBypassed();
    }
  }
}
