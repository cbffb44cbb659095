/** The store that replaces and distributes assignments: it reads the plan and all rows, decides, and then writes the new
    generation row by row, without a transaction. */
module AssignmentStore {
  import opened Basics
  import opened OrderedMap
  import opened AssignmentModel
  import opened AssignmentOverlay
  import opened AssignmentGenerations
  import opened AssignmentLineage

  datatype Outcome = Refused | Interrupted(done: set<Id>) | Completed(active: set<Id>)

  /** `rows` are the rows of the table, each once, in any order. */
  ghost predicate Lists(rows: seq<Record>, table: Table)
  {
    && (forall x :: x in rows <==> x.Key() in table && table[x.Key()] == x)
    && (forall i, j :: 0 <= i < j < |rows| ==> rows[i].Key() != rows[j].Key())
  }

  /** Whatever the order of the rows, the overlay shows the plan's assignments. */
  lemma OverlayShows(table: Table, plan: Plan, rows: seq<Record>)
    requires Lists(rows, table) && Keyed(table)
    ensures Overlay(plan, Values(Latest(AssignmentRows(rows), Some(plan.tenant), Some(plan.id)))).m == Shown(table, plan)
  {
    hide Overlay, Latest, Lists, Shown;
    var overlay := Overlay(plan, Values(Latest(AssignmentRows(rows), Some(plan.tenant), Some(plan.id)))).m;
    forall id ensures At(Overlay(plan, Values(Latest(AssignmentRows(rows), Some(plan.tenant), Some(plan.id)))), id)
                      == if id in Shown(table, plan) then Some(Shown(table, plan)[id]) else None
    {
      OverlayShowsAt(table, plan, rows, id);
    }
    forall id ensures id in overlay <==> id in Shown(table, plan) {
    }
  }

  lemma OverlayShowsAt(table: Table, plan: Plan, rows: seq<Record>, id: Id)
    requires Lists(rows, table) && Keyed(table)
    ensures At(Overlay(plan, Values(Latest(AssignmentRows(rows), Some(plan.tenant), Some(plan.id)))), id)
            == if id in Shown(table, plan) then Some(Shown(table, plan)[id]) else None
  {
    hide Overlay, Latest, Committed;
    var row := if HasAssignment(table, id) then Some(table[id].assignment) else None;
    var assignments := AssignmentRows(rows);
    assert OnlyRow(assignments, id, row) by {
      forall a | a in assignments && a.id == id ensures row == Some(a) {
        assert AssignmentRecord(a) in rows && AssignmentRecord(a).Key() == id;
      }
      if row.Some? {
        assert table[id].Key() == id;
        assert table[id] in rows;
      }
    }
    LatestOfOnlyRow(assignments, Some(plan.tenant), Some(plan.id), id, row);
    var own := if row.Some? && Wanted(row.value, Some(plan.tenant), Some(plan.id)) then row else None;
    OverlayOfOnlyRow(plan, Values(Latest(assignments, Some(plan.tenant), Some(plan.id))), id, own);
  }

  /** Listing a plan reads exactly the assignments the writes see, whatever the order of the rows. */
  lemma ListingIsShown(plans: seq<Plan>, table: Table, plan: Plan, rows: seq<Record>)
    requires PlanById(plans, plan.id) == Found(plan) && Lists(rows, table) && Keyed(table)
    ensures var listed := List(plans, rows, plan.tenant, plan.id);
            listed.Some? && listed.value.m == Shown(table, plan)
  {
    hide Overlay, Latest, Lists, Shown;
    OverlayShows(table, plan, rows);
  }

  /** After a distribution, listing its plan gives exactly the committed generation. */
  lemma DistributionIsRelisted(plans: seq<Plan>, table: Table, scope: Scope, d: Distribution, at: int, rows: seq<Record>)
    requires Keyed(table) && NoSnapshots(plans)
    requires CanDistribute(ScopePlan(plans, scope), table, scope, d)
    requires IsRetirementTime(Shown(table, ScopePlan(plans, scope).value), ScopePlan(plans, scope).value, scope, d, at)
    requires var next := NextByDistribution(Shown(table, ScopePlan(plans, scope).value), scope, d, at);
             Lists(rows, Distributed(plans, table, scope, d, at, next.Keys))
    ensures var next := NextByDistribution(Shown(table, ScopePlan(plans, scope).value), scope, d, at);
            var listed := List(plans, rows, scope.tenant, scope.plan);
            listed.Some? && listed.value.m == next
  {
    hide Lists, Shown, List, CanDistribute, NextByDistribution, IsRetirementTime, Distributed;
    var plan := PlanOfDistribution(plans, table, scope, d);
    var next := NextByDistribution(Shown(table, plan), scope, d, at);
    var t := Distributed(plans, table, scope, d, at, next.Keys);
    assert Shown(t, plan) == next by { DistributionIsExact(plans, table, scope, d, at); }
    assert Keyed(t) by { DistributedIsKeyed(plans, table, scope, d, at, next.Keys); }
    ListingIsShown(plans, t, plan, rows);
  }

  lemma PlanOfDistribution(plans: seq<Plan>, table: Table, scope: Scope, d: Distribution) returns (plan: Plan)
    requires CanDistribute(ScopePlan(plans, scope), table, scope, d)
    ensures ScopePlan(plans, scope) == Some(plan)
    ensures plan.id == scope.plan && plan.tenant == scope.tenant && PlanById(plans, scope.plan) == Found(plan)
  {
    plan := ScopePlan(plans, scope).value;
  }

  lemma DistributedIsKeyed(plans: seq<Plan>, table: Table, scope: Scope, d: Distribution, at: int, done: set<Id>)
    requires Keyed(table)
    ensures Keyed(Distributed(plans, table, scope, d, at, done))
  {
    hide NextByDistribution, CanDistribute, IsRetirementTime;
    var plan := ScopePlan(plans, scope);
    if CanDistribute(plan, table, scope, d) {
      assert plan.Some? by { var p := PlanOfDistribution(plans, table, scope, d); }
      var shown := Shown(table, plan.value);
      ShownUnderOwnIds(table, plan.value);
      DistributedUnderOwnIds(shown, scope, d, at);
    }
  }

  /** The same of a replacement. */
  lemma ReplacementIsRelisted(plans: seq<Plan>, table: Table, scope: Scope, r: Replacement, rows: seq<Record>)
    requires Keyed(table) && NoSnapshots(plans) && CanReplace(ScopePlan(plans, scope), table, scope, r)
    requires Lists(rows, Replaced(plans, table, scope, r))
    ensures var listed := List(plans, rows, scope.tenant, scope.plan);
            listed.Some? && listed.value.m == NextByReplacement(Shown(table, ScopePlan(plans, scope).value), r)
  {
    hide Lists, Overlay, Latest, List, Admitted, Blank;
    var plan := ScopePlan(plans, scope).value;
    var next := NextByReplacement(Shown(table, plan), r);
    GenerationIsReread(table, plan, next);
    ListingIsShown(plans, Replaced(plans, table, scope, r), plan, rows);
  }

  class Store {
    const plans: seq<Plan>
    var table: Table

    constructor (plans: seq<Plan>)
      ensures this.plans == plans && table == map[] && Valid()
    {
      this.plans := plans;
      table := map[];
    }

    ghost predicate Valid()
      reads this
    {
      Keyed(table)
    }

    /** All rows, in an order of the table's choosing. */
    method ListRows() returns (rows: seq<Record>)
      requires Valid()
      ensures Lists(rows, table)
    {
      rows := [];
      var left := table.Keys;
      while left != {}
        invariant left <= table.Keys
        invariant forall x :: x in rows <==> x.Key() in table && table[x.Key()] == x && x.Key() !in left
        invariant forall i, j :: 0 <= i < j < |rows| ==> rows[i].Key() != rows[j].Key()
        decreases |left|
      {
        var id :| id in left;
        assert table[id].Key() == id;
        ghost var before := rows;
        rows := rows + [table[id]];
        assert forall x :: x in rows <==> x in before || x == table[id];
        forall i | 0 <= i < |before| ensures before[i].Key() != id {
          assert before[i] in before;
        }
        left := left - {id};
      }
    }

    /** The assignments of a plan, as the writes below read them. */
    method ReadAssignments(plan: Plan) returns (shown: Assignments)
      requires Valid()
      ensures shown.Valid() && shown.m == Shown(table, plan)
    {
      hide Lists, Overlay, Latest, Shown;
      var rows := ListRows();
      var latest := LatestRows(AssignmentRows(rows), Some(plan.tenant), Some(plan.id));
      shown := OverlaySnapshot(plan, Values(latest));
      OverlayShows(table, plan, rows);
    }

    /** Writes the generation in order, at most `budget` rows of it. */
    method CommitGeneration(next: Assignments, budget: nat) returns (written: nat)
      requires Valid() && forall id :: id in next.m ==> next.m[id].id == id
      requires next.Valid()
      modifies this
      ensures Valid()
      ensures written == if |next.keys| <= budget then |next.keys| else budget
      ensures table == CommitPart(old(table), next.m, Ids(next.keys[..written]))
    {
      hide CommitPart, Distinct, Ids, Keyed;
      written := 0;
      CommitNone(table, next.m);
      while written < |next.keys| && written < budget
        invariant written <= |next.keys| && written <= budget
        invariant table == CommitPart(old(table), next.m, Ids(next.keys[..written]))
      {
        var id := next.keys[written];
        CommitNext(old(table), next.m, next.keys[..written], id);
        assert next.keys[..written + 1] == next.keys[..written] + [id];
        table := table[id := AssignmentRecord(next.m[id])];
        written := written + 1;
      }
      CommitIsKeyed(old(table), next.m, Ids(next.keys[..written]));
    }

    method ReplaceAssignment(scope: Scope, r: Replacement, budget: nat) returns (outcome: Outcome)
      requires Valid()
      modifies this
      ensures Valid()
      ensures outcome.Refused? <==> !CanReplace(ScopePlan(plans, scope), old(table), scope, r)
      ensures outcome.Refused? ==> table == old(table)
      ensures outcome.Completed? ==>
        && table == Replaced(plans, old(table), scope, r)
        && outcome.active == ReportedByReplacement(Shown(old(table), ScopePlan(plans, scope).value), scope, r)
      ensures outcome.Interrupted? ==>
        var plan := ScopePlan(plans, scope).value;
        && table == CommitPart(old(table), NextByReplacement(Shown(old(table), plan), r), outcome.done)
        && (plan.snapshot.None? ==> r.successor.id !in outcome.done)
    {
      hide Shown, Admitted, Blank, Matches, Overlay, Latest, CommitPart, Distinct, Retire, Succeed, ReportedByReplacement;
      var plan := ScopePlan(plans, scope);
      if plan.None? || !Admitted(plan.value, scope.round, r.authorizedAt, true) {
        return Refused;
      }
      var shown := ReadAssignments(plan.value);
      if !CanReplace(plan, table, scope, r) {
        return Refused;
      }
      ShownUnderOwnIds(table, plan.value);
      var next := Set(shown, r.previous, Retire(shown.m[r.previous], Some(r.successor.id), r.reason, r.successor.updatedAt));
      next := Set(next, r.successor.id, Succeed(r.successor, r.previous, r.reason));
      assert next.m == NextByReplacement(shown.m, r);
      NextUnderOwnIds(shown.m, r);
      var written := CommitGeneration(next, budget);
      if written == |next.keys| {
        assert next.keys[..written] == next.keys;
        assert Ids(next.keys) == next.m.Keys;
        return Completed(ReportedByReplacement(shown.m, scope, r));
      }
      if plan.value.snapshot.None? {
        ShownAreRows(old(table), plan.value);
        assert next.keys == shown.keys + [r.successor.id];
        assert next.keys[..written] == shown.keys[..written];
      }
      return Interrupted(Ids(next.keys[..written]));
    }

    /** The versions the caller previewed, by id; `None` when an id is repeated. */
    method ExpectedVersions(expected: seq<Expected>) returns (r: Option<map<Id, int>>)
      ensures r.Some? <==> DistinctExpected(expected)
      ensures r.Some? ==> forall id, version :: id in r.value && r.value[id] == version <==> Expected(id, version) in expected
    {
      var versions: map<Id, int> := map[];
      for i := 0 to |expected|
        invariant forall j, k :: 0 <= j < k < i ==> expected[j].id != expected[k].id
        invariant forall j :: 0 <= j < i ==> expected[j].id in versions && versions[expected[j].id] == expected[j].version
        invariant forall id :: id in versions ==> Expected(id, versions[id]) in expected[..i]
      {
        if expected[i].id in versions {
          assert exists j :: 0 <= j < i && expected[j].id == expected[i].id by {
            var e := Expected(expected[i].id, versions[expected[i].id]);
            assert e in expected[..i];
          }
          return None;
        }
        versions := versions[expected[i].id := expected[i].version];
        assert expected[..i + 1] == expected[..i] + [expected[i]];
      }
      assert expected[..|expected|] == expected;
      return Some(versions);
    }

    method PreviewHolds(shown: map<Id, Assignment>, scope: Scope, d: Distribution) returns (ok: bool)
      ensures ok <==> PreviewStands(shown, scope, d)
    {
      hide ActiveTarget, DistinctExpected;
      var expected := ExpectedVersions(d.expected);
      var active := ActiveTarget(shown, scope, d);
      assert forall id :: id in active ==> id in shown by { ActiveAreShown(shown, scope, d); }
      if expected.None? {
        return false;
      }
      PreviewByVersions(shown, scope, d, expected.value);
      return expected.value.Keys == active && forall id :: id in active ==> expected.value[id] == shown[id].version;
    }

    /** Checks the desired assignments one after the other. */
    method AllAssignable(shown: map<Id, Assignment>, scope: Scope, desired: seq<Assignment>) returns (ok: bool)
      ensures ok <==> DistinctIds(desired) && forall a :: a in desired ==> CanAssign(shown, table, scope, a)
    {
      hide CanAssign;
      var seen: set<Id> := {};
      for i := 0 to |desired|
        invariant forall id :: id in seen <==> exists j :: 0 <= j < i && desired[j].id == id
        invariant forall j, k :: 0 <= j < k < i ==> desired[j].id != desired[k].id
        invariant forall j :: 0 <= j < i ==> CanAssign(shown, table, scope, desired[j])
      {
        if desired[i].id in seen || !CanAssign(shown, table, scope, desired[i]) {
          return false;
        }
        seen := seen + {desired[i].id};
      }
      return true;
    }

    /** The time retired assignments get. */
    method RetirementTime(shown: Assignments, plan: Plan, scope: Scope, d: Distribution) returns (at: int)
      requires shown.Valid()
      ensures IsRetirementTime(shown.m, plan, scope, d, at)
    {
      hide InTarget, IsActive;
      if d.desired != [] {
        return d.desired[0].updatedAt;
      }
      var active := ActiveTarget(shown.m, scope, d);
      for i := 0 to |shown.keys|
        invariant forall j :: 0 <= j < i ==> shown.keys[j] !in active
      {
        if shown.keys[i] in active {
          return shown.m[shown.keys[i]].updatedAt;
        }
      }
      assert active == {};
      return plan.updatedAt;
    }

    method SetDesired(next: Assignments, shown: map<Id, Assignment>, desired: seq<Assignment>) returns (r: Assignments)
      requires next.Valid()
      ensures r.Valid() && r.m == WithDesired(next.m, shown, desired)
    {
      hide Merge, Distinct;
      r := next;
      for i := 0 to |desired|
        invariant r.Valid() && r.m == WithDesired(next.m, shown, desired[..i])
      {
        assert desired[..i + 1][..i] == desired[..i];
        r := Set(r, desired[i].id, Merge(shown, desired[i]));
      }
      assert desired[..|desired|] == desired;
    }

    /** Applies a distribution; at most `budget` rows are written before a crash. */
    method ApplyDistribution(scope: Scope, d: Distribution, budget: nat) returns (outcome: Outcome, at: int)
      requires Valid()
      modifies this
      ensures Valid()
      ensures outcome.Refused? <==> !CanDistribute(ScopePlan(plans, scope), old(table), scope, d)
      ensures outcome.Refused? ==> table == old(table)
      ensures !outcome.Refused? ==>
        var plan := ScopePlan(plans, scope).value;
        var next := NextByDistribution(Shown(old(table), plan), scope, d, at);
        && IsRetirementTime(Shown(old(table), plan), plan, scope, d, at)
        && table == Distributed(plans, old(table), scope, d, at,
                                if outcome.Completed? then next.Keys else outcome.done)
        && (outcome.Completed? ==> outcome.active == ReportedByDistribution(Shown(old(table), plan), scope, d, at))
    {
      hide Shown, Admitted, Blank, Overlay, Latest, CommitPart, Distinct, IsRetirementTime, NextByDistribution, CanAssign,
        PreviewStands, DistinctIds, Ids, WithDesired, RetireAll, Dropped, ReportedByDistribution;
      at := 0;
      var plan := ScopePlan(plans, scope);
      if Blank(d.reason) || plan.None? || !(d.closedCleanup || Admitted(plan.value, scope.round, d.authorizedAt, false)) {
        return Refused, at;
      }
      var shown := ReadAssignments(plan.value);
      var current := PreviewHolds(shown.m, scope, d);
      var assignable := AllAssignable(shown.m, scope, d.desired);
      if !current || !assignable {
        return Refused, at;
      }
      at := RetirementTime(shown, plan.value, scope, d);
      var retired := OMap(shown.keys, RetireAll(shown.m, Dropped(shown.m, scope, d), d.reason, at));
      RetiredIsValid(shown, Dropped(shown.m, scope, d), d.reason, at);
      var next := SetDesired(retired, shown.m, d.desired);
      assert next.m == NextByDistribution(shown.m, scope, d, at) by { NextIs(shown.m, scope, d, at); }
      ShownUnderOwnIds(table, plan.value);
      DistributedUnderOwnIds(shown.m, scope, d, at);
      var written := CommitGeneration(next, budget);
      if written == |next.keys| {
        assert next.keys[..written] == next.keys;
        assert Ids(next.keys) == next.m.Keys by { AllIds(next); }
        return Completed(ReportedByDistribution(shown.m, scope, d, at)), at;
      }
      return Interrupted(Ids(next.keys[..written])), at;
    }
  }

  function Ids(s: seq<Id>): set<Id>
  {
    set id | id in s
  }

  lemma CommitNone(table: Table, next: map<Id, Assignment>)
    ensures CommitPart(table, next, Ids([])) == table
  {
    assert CommitPart(table, next, Ids([])).Keys == table.Keys;
  }

  lemma CommitIsKeyed(table: Table, next: map<Id, Assignment>, done: set<Id>)
    requires Keyed(table) && forall id :: id in next ==> next[id].id == id
    ensures Keyed(CommitPart(table, next, done))
  {
  }

  lemma CommitNext(table: Table, next: map<Id, Assignment>, ks: seq<Id>, id: Id)
    requires id in next
    ensures CommitPart(table, next, Ids(ks + [id])) == CommitPart(table, next, Ids(ks))[id := AssignmentRecord(next[id])]
  {
    var t, u := CommitPart(table, next, Ids(ks + [id])), CommitPart(table, next, Ids(ks))[id := AssignmentRecord(next[id])];
    assert Ids(ks + [id]) == Ids(ks) + {id};
    assert t.Keys == u.Keys;
  }

  lemma ShownUnderOwnIds(table: Table, plan: Plan)
    requires Keyed(table)
    ensures forall id :: id in Shown(table, plan) ==> Shown(table, plan)[id].id == id
  {
  }

  lemma ShownAreRows(table: Table, plan: Plan)
    requires plan.snapshot.None?
    ensures forall id :: id in Shown(table, plan) ==> id in table
  {
  }

  lemma ActiveAreShown(shown: map<Id, Assignment>, scope: Scope, d: Distribution)
    ensures forall id :: id in ActiveTarget(shown, scope, d) ==> id in shown
  {
  }

  /** The preview stands when the expected versions, as a map, are those of the active target. */
  lemma PreviewByVersions(shown: map<Id, Assignment>, scope: Scope, d: Distribution, versions: map<Id, int>)
    requires DistinctExpected(d.expected)
    requires forall id, version :: id in versions && versions[id] == version <==> Expected(id, version) in d.expected
    ensures var active := ActiveTarget(shown, scope, d);
            PreviewStands(shown, scope, d) <==>
            versions.Keys == active && forall id :: id in active ==> versions[id] == shown[id].version
  {
    hide InTarget, IsActive;
    var active := ActiveTarget(shown, scope, d);
    if PreviewStands(shown, scope, d) {
      forall id | id in versions ensures id in active {
        assert Expected(id, versions[id]) in d.expected;
      }
      forall id | id in active ensures id in versions && versions[id] == shown[id].version {
        assert Expected(id, shown[id].version) in d.expected;
      }
    }
    if versions.Keys == active && forall id :: id in active ==> versions[id] == shown[id].version {
      forall e | e in d.expected ensures e.id in active && shown[e.id].version == e.version {
        assert Expected(e.id, e.version) == e;
        assert e.id in versions && versions[e.id] == e.version;
      }
    }
  }

  lemma RetiredIsValid(shown: Assignments, ids: set<Id>, reason: string, at: int)
    requires shown.Valid()
    ensures OMap(shown.keys, RetireAll(shown.m, ids, reason, at)).Valid()
  {
  }

  lemma AllIds(o: Assignments)
    requires o.Valid()
    ensures Ids(o.keys) == o.m.Keys
  {
  }

  lemma NextIs(shown: map<Id, Assignment>, scope: Scope, d: Distribution, at: int)
    ensures NextByDistribution(shown, scope, d, at) ==
            WithDesired(RetireAll(shown, Dropped(shown, scope, d), d.reason, at), shown, d.desired)
  {
  }

  lemma DistributedUnderOwnIds(shown: map<Id, Assignment>, scope: Scope, d: Distribution, at: int)
    requires forall id :: id in shown ==> shown[id].id == id
    ensures forall id :: id in NextByDistribution(shown, scope, d, at) ==> NextByDistribution(shown, scope, d, at)[id].id == id
  {
    hide Dropped, Merge, Retire, WithDesired;
    forall id | id in shown ensures Retire(shown[id], None, d.reason, at).id == id {
      RetireKeepsId(shown[id], d.reason, at);
    }
    forall id | id in NextByDistribution(shown, scope, d, at)
      ensures NextByDistribution(shown, scope, d, at)[id].id == id
    {
      WithDesiredAt(RetireAll(shown, Dropped(shown, scope, d), d.reason, at), shown, d.desired, id);
    }
  }

  lemma RetireKeepsId(a: Assignment, reason: string, at: int)
    ensures Retire(a, None, reason, at).id == a.id
  {
  }

  lemma NextUnderOwnIds(shown: map<Id, Assignment>, r: Replacement)
    requires r.previous in shown && forall id :: id in shown ==> shown[id].id == id
    ensures forall id :: id in NextByReplacement(shown, r) ==> NextByReplacement(shown, r)[id].id == id
  {
  }
}
