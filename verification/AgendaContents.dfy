/** What exactly the memory tier holds after each operation: nothing is forgotten without a reason. */
module AgendaContents {
  import opened Basics
  import opened OrderedMap
  import opened AgendaCache

  /** The entries that have not expired. */
  function LiveAt(m: Memory, now: int): map<Path, Entry>
  {
    map p | p in m.entries.m && now < m.entries.m[p].expiresAt :: m.entries.m[p]
  }

  /** The live entry that was inserted before all other live ones. */
  ghost predicate IsOldest(m: Memory, now: int, p: Path)
  {
    p in LiveAt(m, now) && forall q :: q in LiveAt(m, now) && q != p ==> Precedes(m.entries.keys, p, q)
  }

  function Inserted(m: Memory, p: Path, e: Entry, now: int): (t: Memory)
    requires m.Valid()
    ensures t.Valid()
  {
    var live := RemoveExpired(m.(index := Retain(m.index, IndexLive(now))), now);
    live.(entries := Set(live.entries, p, e), index := Set(live.index, p, Indexed(e.eventId, e.expiresAt)))
  }

  lemma InsertedIs(m: Memory, p: Path, e: Entry, now: int)
    requires m.Valid() && |m.entries.keys| <= MAX_ENTRIES
    ensures var t := Inserted(m, p, e, now);
            && t.entries.Valid() && t.entries.m == LiveAt(m, now)[p := e]
            && |t.entries.keys| == |LiveAt(m, now)[p := e]| && |LiveAt(m, now)| <= 128
    ensures var t := Inserted(m, p, e, now);
            forall a, b :: a != p && b != p && Precedes(t.entries.keys, a, b) ==> Precedes(m.entries.keys, a, b)
    ensures var t := Inserted(m, p, e, now);
            p !in LiveAt(m, now) ==> t.entries.keys != [] && t.entries.keys[|t.entries.keys| - 1] == p
  {
    hide Retain, Distinct;
    var kept := Retain(m.entries, Live(now));
    var t := Inserted(m, p, e, now);
    assert t.entries == Set(kept, p, e);
    assert kept.m == LiveAt(m, now);
    KeysAreDomain(t.entries);
    KeysAreDomain(kept);
    forall a, b | a != p && b != p && Precedes(t.entries.keys, a, b) ensures Precedes(m.entries.keys, a, b) {
      SnocKeepsOrder(kept.keys, p, a, b);
      RetainKeepsOrder(m.entries, Live(now), a, b);
    }
  }

  /** A new rendering joins all live entries while there is room for it; otherwise it takes the place of the oldest live
      one. Nothing else goes. */
  lemma RememberLeaves(m: Memory, p: Path, e: Entry, now: int)
    requires m.Valid() && |m.entries.keys| <= 128
    ensures var live := LiveAt(m, now);
            var r := Remember(m, p, e, now);
            if p in live || |live| < 128 then r.entries.m == live[p := e]
            else exists oldest :: IsOldest(m, now, oldest) && r.entries.m == (live - {oldest})[p := e]
  {
    hide Remember, Distinct, IsOldest, Inserted, EvictOldest, LiveAt;
    var live := LiveAt(m, now);
    var t := Inserted(m, p, e, now);
    InsertedIs(m, p, e, now);
    RememberEvicts(m, p, e, now);
    EvictsOne(t);
    SizeWith(live, p, e);
    if p !in live && |live| >= 128 {
      FirstIsOldest(m, p, e, now);
      OthersStay(live, p, e, t.entries.keys[0]);
    }
  }

  lemma SizeWith(live: map<Path, Entry>, p: Path, e: Entry)
    ensures |live[p := e]| == |live| + if p in live then 0 else 1
  {
    assert live[p := e].Keys == live.Keys + {p};
  }

  lemma RememberEvicts(m: Memory, p: Path, e: Entry, now: int)
    requires m.Valid()
    ensures Remember(m, p, e, now) == EvictOldest(Inserted(m, p, e, now))
  {
  }

  lemma OthersStay(live: map<Path, Entry>, p: Path, e: Entry, oldest: Path)
    requires oldest != p
    ensures live[p := e] - {oldest} == (live - {oldest})[p := e]
  {
  }

  lemma EvictsOne(t: Memory)
    requires t.Valid() && |t.entries.keys| <= 129
    ensures EvictOldest(t).entries.m ==
            if |t.entries.keys| == 129 then t.entries.m - {t.entries.keys[0]} else t.entries.m
    ensures EvictOldest(t).index.m ==
            if |t.entries.keys| == 129 then t.index.m - {t.entries.keys[0]} else t.index.m
  {
    if |t.entries.keys| == 129 {
      var u := Forget(t, t.entries.keys[0]);
      assert EvictOldest(t) == EvictOldest(u) == u;
    }
  }

  lemma FirstIsOldest(m: Memory, p: Path, e: Entry, now: int)
    requires m.Valid() && |m.entries.keys| <= 128 && p !in LiveAt(m, now) && |LiveAt(m, now)| >= 128
    ensures var t := Inserted(m, p, e, now);
            |t.entries.keys| > 0 && t.entries.keys[0] != p && IsOldest(m, now, t.entries.keys[0])
  {
    hide Retain, Inserted, IsOldest;
    InsertedIs(m, p, e, now);
    SizeWith(LiveAt(m, now), p, e);
    var t := Inserted(m, p, e, now);
    var keys := t.entries.keys;
    var oldest := keys[0];
    assert keys[1..][|keys| - 2] == p;
    assert oldest in keys && oldest != p;
    assert oldest in LiveAt(m, now)[p := e];
    forall q | q in LiveAt(m, now) && q != oldest ensures Precedes(m.entries.keys, oldest, q) {
      assert q in keys && q in keys[1..];
      assert Precedes(keys, oldest, q);
    }
    OldestIs(m, now, oldest);
  }

  lemma OldestIs(m: Memory, now: int, p: Path)
    requires p in LiveAt(m, now) && forall q :: q in LiveAt(m, now) && q != p ==> Precedes(m.entries.keys, p, q)
    ensures IsOldest(m, now, p)
  {
  }

  /** The index gains the new rendering, under its event, and loses what expired or was forgotten with its entry. */
  lemma RememberIndexes(m: Memory, p: Path, e: Entry, now: int, q: Path)
    requires m.Valid() && |m.entries.keys| <= 128
    ensures var r := Remember(m, p, e, now);
            && p in r.index.m && r.index.m[p] == Indexed(e.eventId, e.expiresAt)
            && (q != p ==>
                  && (q in r.index.m <==>
                        q in m.index.m && now < m.index.m[q].expiresAt && (q in m.entries.m ==> q in r.entries.m))
                  && (q in r.index.m ==> r.index.m[q] == m.index.m[q]))
  {
    hide Remember, Distinct, EvictOldest, Retain, IsOldest, LiveAt;
    var t := Inserted(m, p, e, now);
    InsertedIs(m, p, e, now);
    RememberEvicts(m, p, e, now);
    EvictsOne(t);
    SizeWith(LiveAt(m, now), p, e);
    assert q != p ==>
      (q in t.index.m <==>
         q in m.index.m && now < m.index.m[q].expiresAt && (q in m.entries.m ==> now < m.entries.m[q].expiresAt));
    assert q in LiveAt(m, now) <==> q in m.entries.m && now < m.entries.m[q].expiresAt by { LiveIs(m, now, q); }
    if |t.entries.keys| == 129 {
      FirstIsOldest(m, p, e, now);
      OldestIsLive(m, now, t.entries.keys[0]);
    }
  }

  lemma LiveIs(m: Memory, now: int, q: Path)
    ensures q in LiveAt(m, now) <==> q in m.entries.m && now < m.entries.m[q].expiresAt
  {
  }

  lemma OldestIsLive(m: Memory, now: int, p: Path)
    requires IsOldest(m, now, p)
    ensures p in LiveAt(m, now)
  {
  }

  lemma InvalidateRetains(m: Memory, eventId: string, candidates: seq<Path>, floor: int)
    requires m.Valid()
    ensures var r := Invalidate(m, eventId, candidates, floor).0;
            && r.entries == Retain(m.entries, NotOwnedBy(eventId))
            && r.index == Retain(Retain(m.index, NotOwnedIn(m.entries.m, eventId)), IndexNotOwnedBy(eventId))
  {
    hide CoveredPaths, BypassAll, Newest, Retain;
    var forgotten := m.(entries := Retain(m.entries, NotOwnedBy(eventId)),
                        index := Retain(Retain(m.index, NotOwnedIn(m.entries.m, eventId)), IndexNotOwnedBy(eventId)));
    BypassAllLevels(forgotten, CoveredPaths(m, eventId, candidates), floor);
  }

  /** An invalidation forgets the event's entries and index rows and keeps every other. */
  lemma InvalidateLeaves(m: Memory, eventId: string, candidates: seq<Path>, floor: int, p: Path)
    requires m.Valid()
    ensures var r := Invalidate(m, eventId, candidates, floor).0;
            && r.entries.m == (map q | q in m.entries.m && m.entries.m[q].eventId != eventId :: m.entries.m[q])
            && (p in r.index.m <==> p in m.index.m && m.index.m[p].eventId != eventId &&
                                    (p in m.entries.m ==> m.entries.m[p].eventId != eventId))
            && (p in r.index.m ==> r.index.m[p] == m.index.m[p])
  {
    hide Invalidate, Retain, Distinct;
    InvalidateRetains(m, eventId, candidates, floor);
  }

  /** A read serves exactly a live entry of a path that is not bypassed and that has the three revisions of the manifest;
      beside expired entries it forgets one that has not. */
  lemma ReadServesExactly(m: Memory, p: Path, wanted: Manifest, now: int)
    requires m.Valid()
    ensures var (r, hit) := ReadMemory(m, p, wanted, now);
            var live := LiveAt(m, now);
            var fits := p in live && live[p].revisionNumber == wanted.agendaRevisionNumber &&
                        live[p].programRevision == wanted.revision && live[p].cacheRevision == wanted.cacheRevision;
            && hit == (if fits && p !in m.bypassed then Some(live[p]) else None)
            && r.entries.m == if fits || p in m.bypassed then live else live - {p}
  {
    hide Retain, Without;
    var live := RemoveExpired(m, now);
    assert live.entries.m == LiveAt(m, now);
  }
}
