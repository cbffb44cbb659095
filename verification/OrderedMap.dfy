/** Insertion-ordered maps and sets, with the iteration and update order of ECMAScript `Map` and `Set`:
    setting a present key keeps its place, setting a new key appends it. */
module OrderedMap {

  datatype OMap<K(==, !new), V> = OMap(keys: seq<K>, m: map<K, V>) {

    ghost predicate Valid()
    {
      && Distinct(keys)
      && (forall k :: k in keys <==> k in m)
    }
  }

  predicate Distinct<K(==, !new)>(s: seq<K>)
  {
    s == [] || (s[0] !in s[1..] && Distinct(s[1..]))
  }

  function Without<K(==, !new)>(s: seq<K>, k: K): (r: seq<K>)
    ensures forall x :: x in r <==> x in s && x != k
    ensures |r| <= |s|
    ensures k in s ==> |r| < |s|
    ensures k !in s ==> r == s
    ensures Distinct(s) ==> Distinct(r)
  {
    if s == [] then []
    else if s[0] == k then Without(s[1..], k)
    else [s[0]] + Without(s[1..], k)
  }

  /** `Set.prototype.add` on the insertion order. */
  function Add<K(==, !new)>(s: seq<K>, k: K): (r: seq<K>)
    ensures forall x :: x in r <==> x in s || x == k
    ensures Distinct(s) ==> Distinct(r)
    ensures |r| == |s| + if k in s then 0 else 1
  {
    if k in s then s else
      DistinctSnoc(s, k);
      s + [k]
  }

  lemma {:induction false} DistinctSnoc<K(!new)>(s: seq<K>, k: K)
    requires k !in s
    ensures Distinct(s) ==> Distinct(s + [k])
  {
    if s != [] {
      DistinctSnoc(s[1..], k);
      assert (s + [k])[1..] == s[1..] + [k];
    }
  }

  function AddAll<K(==, !new)>(s: seq<K>, ks: seq<K>): (r: seq<K>)
    ensures forall x :: x in r <==> x in s || x in ks
    ensures Distinct(s) ==> Distinct(r)
    decreases |ks|
  {
    if ks == [] then s else AddAll(Add(s, ks[0]), ks[1..])
  }

  lemma {:induction false} AddAllSnoc<K(!new)>(s: seq<K>, ks: seq<K>, k: K)
    ensures AddAll(s, ks + [k]) == Add(AddAll(s, ks), k)
    decreases |ks|
  {
    if ks == [] {
      assert AddAll(s, [k]) == AddAll(Add(s, k), []);
    } else {
      assert (ks + [k])[1..] == ks[1..] + [k];
      AddAllSnoc(Add(s, ks[0]), ks[1..], k);
    }
  }

  function Set<K(==, !new), V>(o: OMap<K, V>, k: K, v: V): (r: OMap<K, V>)
    ensures o.Valid() ==> r.Valid()
    ensures r.m == o.m[k := v]
  {
    OMap(Add(o.keys, k), o.m[k := v])
  }

  function Delete<K(==, !new), V>(o: OMap<K, V>, k: K): (r: OMap<K, V>)
    ensures o.Valid() ==> r.Valid()
    ensures r.m == o.m - {k}
    ensures |r.keys| <= |o.keys|
  {
    OMap(Without(o.keys, k), o.m - {k})
  }

  /** Adds to `s` the keys of `ks` whose value satisfies `pick`, in order. */
  function AddMatching<K(==, !new), V>(s: seq<K>, ks: seq<K>, m: map<K, V>, pick: (K, V) -> bool): (r: seq<K>)
    ensures forall x :: x in r <==> x in s || (x in ks && x in m && pick(x, m[x]))
    ensures Distinct(s) ==> Distinct(r)
    decreases |ks|
  {
    if ks == [] then s
    else AddMatching(if ks[0] in m && pick(ks[0], m[ks[0]]) then Add(s, ks[0]) else s, ks[1..], m, pick)
  }

  /** Deletes the entries with a key in `ks` that `keep` rejects. */
  function DropRejected<K(==, !new), V>(o: OMap<K, V>, ks: seq<K>, keep: (K, V) -> bool): (r: OMap<K, V>)
    ensures o.Valid() ==> r.Valid()
    ensures forall k :: k in r.m <==> k in o.m && (k in ks ==> keep(k, o.m[k]))
    ensures forall k :: k in r.m ==> r.m[k] == o.m[k]
    ensures |r.keys| <= |o.keys|
    decreases |ks|
  {
    if ks == [] then o
    else DropRejected(if ks[0] in o.m && !keep(ks[0], o.m[ks[0]]) then Delete(o, ks[0]) else o, ks[1..], keep)
  }

  function Retain<K(==, !new), V>(o: OMap<K, V>, keep: (K, V) -> bool): (r: OMap<K, V>)
    requires o.Valid()
    ensures r.Valid()
    ensures forall k :: k in r.m <==> k in o.m && keep(k, o.m[k])
    ensures forall k :: k in r.m ==> r.m[k] == o.m[k]
    ensures |r.keys| <= |o.keys|
  {
    DropRejected(o, o.keys, keep)
  }

  /** Deletes, during one iteration over the map, the entries that `keep` rejects. */
  method DeleteUnless<K(==, !new), V>(o: OMap<K, V>, keep: (K, V) -> bool) returns (r: OMap<K, V>)
    requires o.Valid()
    ensures r == Retain(o, keep)
  {
    r := o;
    for i := 0 to |o.keys|
      invariant DropRejected(r, o.keys[i..], keep) == Retain(o, keep)
    {
      var k := o.keys[i];
      assert o.keys[i..][1..] == o.keys[i + 1..];
      if k in r.m && !keep(k, r.m[k]) {
        r := Delete(r, k);
      }
    }
  }

  /** Drops oldest elements until at most `limit` remain. */
  function Newest<K(==, !new)>(s: seq<K>, limit: nat): (r: seq<K>)
    ensures |r| <= limit
    ensures |s| <= limit ==> r == s
    ensures forall x :: x in r ==> x in s
    ensures Distinct(s) ==> Distinct(r)
  {
    if |s| <= limit then s else Newest(s[1..], limit)
  }

  // ---------------------------------------------------------------------------------------------
  // Order
  // ---------------------------------------------------------------------------------------------

  /** `a` stands before `b`. */
  predicate Precedes<K(==)>(s: seq<K>, a: K, b: K)
  {
    s != [] && ((s[0] == a && b in s[1..]) || Precedes(s[1..], a, b))
  }

  lemma {:induction false} WithoutKeepsOrder<K(!new)>(s: seq<K>, k: K, a: K, b: K)
    ensures Precedes(Without(s, k), a, b) <==> Precedes(s, a, b) && a != k && b != k
  {
    if s != [] {
      WithoutKeepsOrder(s[1..], k, a, b);
      PrecededIsIn(s[1..], a, b);
    }
  }

  lemma {:induction false} PrecededIsIn<K(!new)>(s: seq<K>, a: K, b: K)
    ensures Precedes(s, a, b) ==> a in s && b in s
  {
    if s != [] {
      PrecededIsIn(s[1..], a, b);
    }
  }

  lemma {:induction false} SnocKeepsOrder<K(!new)>(s: seq<K>, k: K, a: K, b: K)
    ensures Precedes(s + [k], a, b) <==> Precedes(s, a, b) || (a in s && b == k)
  {
    if s == [] {
      assert s + [k] == [k] && [k][1..] == [];
    } else {
      assert (s + [k])[1..] == s[1..] + [k];
      SnocKeepsOrder(s[1..], k, a, b);
    }
  }

  lemma {:induction false} DropRejectedKeepsOrder<K(!new), V>(o: OMap<K, V>, ks: seq<K>, keep: (K, V) -> bool, a: K, b: K)
    requires o.Valid()
    ensures var r := DropRejected(o, ks, keep);
            Precedes(r.keys, a, b) <==> Precedes(o.keys, a, b) && a in r.m && b in r.m
    decreases |ks|
  {
    if ks == [] {
      PrecededIsIn(o.keys, a, b);
    } else {
      var next := if ks[0] in o.m && !keep(ks[0], o.m[ks[0]]) then Delete(o, ks[0]) else o;
      WithoutKeepsOrder(o.keys, ks[0], a, b);
      DropRejectedKeepsOrder(next, ks[1..], keep, a, b);
    }
  }

  /** What an iteration retains keeps its order. */
  lemma RetainKeepsOrder<K(!new), V>(o: OMap<K, V>, keep: (K, V) -> bool, a: K, b: K)
    requires o.Valid()
    ensures var r := Retain(o, keep);
            Precedes(r.keys, a, b) <==> Precedes(o.keys, a, b) && a in r.m && b in r.m
  {
    DropRejectedKeepsOrder(o, o.keys, keep, a, b);
  }

  lemma KeysAreDomain<K(!new), V>(o: OMap<K, V>)
    requires o.Valid()
    ensures |o.keys| == |o.m|
  {
    DistinctSize(o.keys);
    assert (set k | k in o.keys) == o.m.Keys;
  }

  lemma {:induction false} DistinctSize<K(!new)>(s: seq<K>)
    requires Distinct(s)
    ensures |set k | k in s| == |s|
  {
    if s != [] {
      DistinctSize(s[1..]);
      assert (set k | k in s) == {s[0]} + (set k | k in s[1..]);
    }
  }
}
