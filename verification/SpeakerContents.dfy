/** What exactly the speaker memory holds after each operation. */
module SpeakerContents {
  import opened Basics
  import opened OrderedMap
  import opened SpeakerCache

  /** The entries that have not expired and are not of the base path. */
  function Others(m: Memory, base: Base, now: int): map<Path, Entry>
  {
    map p | p in m.entries.m && now < m.entries.m[p].expiresAt && p.base != base :: m.entries.m[p]
  }

  ghost predicate IsOldest(m: Memory, base: Base, now: int, p: Path)
  {
    p in Others(m, base, now) && forall q :: q in Others(m, base, now) && q != p ==> Precedes(m.entries.keys, p, q)
  }

  function Kept(m: Memory, base: Base, now: int): (o: OMap<Path, Entry>)
    requires m.entries.Valid()
    ensures o.Valid()
  {
    Retain(Retain(m.entries, Live(now)), NotOf(base))
  }

  lemma KeptIs(m: Memory, base: Base, now: int)
    requires m.entries.Valid() && |m.entries.keys| <= 128
    ensures var o := Kept(m, base, now);
            && o.m == Others(m, base, now) && |o.keys| == |Others(m, base, now)| <= 128
            && forall a, b :: Precedes(o.keys, a, b) ==> Precedes(m.entries.keys, a, b)
  {
    hide Retain, Distinct;
    var live := Retain(m.entries, Live(now));
    var o := Kept(m, base, now);
    KeysAreDomain(o);
    assert o.m == Others(m, base, now);
    forall a, b | Precedes(o.keys, a, b) ensures Precedes(m.entries.keys, a, b) {
      RetainKeepsOrder(live, NotOf(base), a, b);
      RetainKeepsOrder(m.entries, Live(now), a, b);
    }
  }

  lemma EvictsOne(o: OMap<Path, Entry>)
    requires o.Valid() && |o.keys| <= 129
    ensures EvictOldest(o).m == if |o.keys| == 129 then o.m - {o.keys[0]} else o.m
  {
    if |o.keys| == 129 {
      var u := Delete(o, o.keys[0]);
      assert EvictOldest(o) == EvictOldest(u) == u;
    }
  }

  lemma FirstIsOldest(m: Memory, base: Base, now: int)
    requires m.entries.Valid() && |m.entries.keys| <= 128 && |Others(m, base, now)| >= 128
    ensures var o := Kept(m, base, now); |o.keys| > 0 && IsOldest(m, base, now, o.keys[0])
  {
    hide Retain, Kept;
    KeptIs(m, base, now);
    var o := Kept(m, base, now);
    assert o.keys[0] in o.keys;
    forall q | q in Others(m, base, now) && q != o.keys[0] ensures Precedes(m.entries.keys, o.keys[0], q) {
      assert q in o.keys && q in o.keys[1..];
      assert Precedes(o.keys, o.keys[0], q);
    }
  }

  /** A write below the latest cache revision of its base path changes nothing. Any other takes the place of all entries
      of its base path, and of the oldest live entry where the others already fill the memory; it keeps all others. */
  lemma WriteLeaves(m: Memory, p: Path, e: Entry, now: int)
    requires m.entries.Valid() && |m.entries.keys| <= 128
    ensures var others := Others(m, p.base, now);
            var t := Write(m, p, e, now).0;
            if e.cacheRevision < Level(m.latest, p.base) then t == m
            else
              && t.latest == m.latest[p.base := e.cacheRevision]
              && if |others| < 128 then t.entries.m == others[p := e]
                 else exists oldest :: IsOldest(m, p.base, now, oldest) && t.entries.m == (others - {oldest})[p := e]
  {
    hide Retain, Distinct, EvictOldest, IsOldest, Others;
    if Level(m.latest, p.base) <= e.cacheRevision {
      var others := Others(m, p.base, now);
      var kept := Kept(m, p.base, now);
      KeptIs(m, p.base, now);
      NoneOfBase(m, p, now);
      var o := Set(kept, p, e);
      assert o.keys == kept.keys + [p];
      EvictsOne(o);
      if |others| >= 128 {
        FirstIsOldest(m, p.base, now);
        var oldest := kept.keys[0];
        assert o.keys[0] == oldest && oldest in kept.keys && oldest != p;
        assert others[p := e] - {oldest} == (others - {oldest})[p := e];
      }
    }
  }

  lemma NoneOfBase(m: Memory, p: Path, now: int)
    ensures p !in Others(m, p.base, now)
  {
  }

  /** A read serves exactly a live entry with the revisions of the path; it forgets the expired entries only. */
  lemma ReadServesExactly(m: Memory, p: Path, now: int)
    requires m.entries.Valid()
    ensures var (r, hit) := ReadMemory(m, p, now);
            && r.entries.m == (map q | q in m.entries.m && now < m.entries.m[q].expiresAt :: m.entries.m[q])
            && hit == if p in r.entries.m && r.entries.m[p].programRevision == p.programRevision
                         && r.entries.m[p].cacheRevision == p.cacheRevision then Some(r.entries.m[p]) else None
  {
    hide Retain;
  }

  /** An invalidation forgets the entries of its base path and raises its latest revision, never lowers it. */
  lemma InvalidateLeaves(m: Memory, base: Base, revision: Option<int>, other: Base)
    requires m.entries.Valid()
    ensures var t := Invalidate(m, base, revision);
            && t.entries.m == (map q | q in m.entries.m && q.base != base :: m.entries.m[q])
            && (other != base || revision.None? ==> Level(t.latest, other) == Level(m.latest, other))
            && (revision.Some? ==>
                  Level(t.latest, base) >= revision.value && Level(t.latest, base) >= Level(m.latest, base) &&
                  (Level(t.latest, base) == revision.value || Level(t.latest, base) == Level(m.latest, base)))
  {
    hide Retain;
  }
}
