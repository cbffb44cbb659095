/** Reading assignments: the newest row of each id, the overlay of rows on a plan's committed snapshot, and the two
    views that must agree, one assignment by id and the list of one plan. */
module AssignmentOverlay {
  import opened Basics
  import opened OrderedMap
  import opened AssignmentModel

  type Assignments = OMap<Id, Assignment>

  const EMPTY: Assignments := OMap([], map[])

  predicate Wanted(a: Assignment, tenant: Option<string>, plan: Option<string>)
  {
    (tenant.Some? ==> a.tenant == tenant.value) && (plan.Some? ==> a.plan == plan.value)
  }

  function Absorb(o: Assignments, a: Assignment, tenant: Option<string>, plan: Option<string>): (r: Assignments)
    ensures o.Valid() ==> r.Valid()
  {
    if Wanted(a, tenant, plan) && (a.id !in o.m || Newer(a, o.m[a.id])) then Set(o, a.id, a) else o
  }

  /** The newest wanted row of each id, ids in the order of their first rows. */
  function Latest(rows: seq<Assignment>, tenant: Option<string>, plan: Option<string>): (r: Assignments)
    ensures r.Valid()
  {
    if rows == [] then EMPTY
    else Absorb(Latest(rows[..|rows| - 1], tenant, plan), rows[|rows| - 1], tenant, plan)
  }

  method LatestRows(rows: seq<Assignment>, tenant: Option<string>, plan: Option<string>) returns (r: Assignments)
    ensures r == Latest(rows, tenant, plan)
  {
    r := EMPTY;
    for i := 0 to |rows|
      invariant r == Latest(rows[..i], tenant, plan)
    {
      var a := rows[i];
      assert rows[..i + 1][..i] == rows[..i];
      if Wanted(a, tenant, plan) && (a.id !in r.m || Newer(a, r.m[a.id])) {
        r := Set(r, a.id, a);
      }
    }
    assert rows[..|rows|] == rows;
  }

  /** `o` holds, for each id with a wanted row, one wanted row that no other is newer than. */
  ghost predicate HoldsNewest(o: Assignments, rows: seq<Assignment>, tenant: Option<string>, plan: Option<string>)
  {
    && (forall id :: id in o.m ==> o.m[id] in rows && o.m[id].id == id && Wanted(o.m[id], tenant, plan))
    && (forall a :: a in rows && Wanted(a, tenant, plan) ==> a.id in o.m && !Newer(a, o.m[a.id]))
  }

  lemma NewerIsStrict(a: Assignment, b: Assignment, c: Assignment)
    ensures !Newer(a, a)
    ensures Newer(a, b) && !Newer(c, b) ==> !Newer(c, a)
  {
  }

  lemma AbsorbHoldsNewest(o: Assignments, rows: seq<Assignment>, a: Assignment, tenant: Option<string>, plan: Option<string>)
    requires HoldsNewest(o, rows, tenant, plan)
    ensures HoldsNewest(Absorb(o, a, tenant, plan), rows + [a], tenant, plan)
  {
    hide Wanted, Newer;
    var r := Absorb(o, a, tenant, plan);
    var all := rows + [a];
    assert all[|rows|] == a;
    forall b | b in rows ensures b in all {
    }
    forall b | b in all && Wanted(b, tenant, plan) ensures b.id in r.m && !Newer(b, r.m[b.id]) {
      if b.id == a.id && a.id in o.m {
        NewerIsStrict(a, o.m[a.id], b);
      }
      NewerIsStrict(a, a, a);
    }
  }

  lemma EmptyHoldsNewest(tenant: Option<string>, plan: Option<string>)
    ensures HoldsNewest(EMPTY, [], tenant, plan)
  {
  }

  lemma {:induction false} LatestHoldsNewest(rows: seq<Assignment>, tenant: Option<string>, plan: Option<string>)
    ensures HoldsNewest(Latest(rows, tenant, plan), rows, tenant, plan)
  {
    hide Absorb, HoldsNewest;
    if rows == [] {
      EmptyHoldsNewest(tenant, plan);
    } else {
      var init, a := rows[..|rows| - 1], rows[|rows| - 1];
      LatestHoldsNewest(init, tenant, plan);
      AbsorbHoldsNewest(Latest(init, tenant, plan), init, a, tenant, plan);
      assert rows == init + [a];
    }
  }

  /** The row kept for an id is one of the wanted rows of that id; none of them has a higher version, and none of its
      version was updated later. */
  lemma LatestIsLatest(rows: seq<Assignment>, tenant: Option<string>, plan: Option<string>, id: Id)
    ensures var r := Latest(rows, tenant, plan).m;
            && (id in r <==> exists a :: a in rows && a.id == id && (tenant.Some? ==> a.tenant == tenant.value)
                                         && (plan.Some? ==> a.plan == plan.value))
            && (id in r ==>
                  && r[id] in rows && r[id].id == id
                  && (tenant.Some? ==> r[id].tenant == tenant.value) && (plan.Some? ==> r[id].plan == plan.value)
                  && forall a :: a in rows && a.id == id && (tenant.Some? ==> a.tenant == tenant.value)
                                 && (plan.Some? ==> a.plan == plan.value) ==>
                       a.version < r[id].version || (a.version == r[id].version && a.updatedAt <= r[id].updatedAt))
  {
    hide Latest;
    LatestHoldsNewest(rows, tenant, plan);
  }

  /** The order of the rows does not matter: the same ids come out, each at the same version and time; and when no two
      different rows of an id tie, the very same assignments. */
  lemma LatestIgnoresOrder(rows: seq<Assignment>, others: seq<Assignment>, tenant: Option<string>, plan: Option<string>)
    requires forall a :: a in rows <==> a in others
    ensures var r, o := Latest(rows, tenant, plan).m, Latest(others, tenant, plan).m;
            && r.Keys == o.Keys
            && (forall id :: id in r ==> r[id].version == o[id].version && r[id].updatedAt == o[id].updatedAt)
            && ((forall a, b :: a in rows && b in rows && a.id == b.id && a != b ==> Newer(a, b) || Newer(b, a)) ==> r == o)
  {
    hide Latest, Wanted;
    LatestHoldsNewest(rows, tenant, plan);
    LatestHoldsNewest(others, tenant, plan);
    var r, o := Latest(rows, tenant, plan).m, Latest(others, tenant, plan).m;
    forall id ensures id in r <==> id in o {
    }
    forall id | id in r ensures !Newer(r[id], o[id]) && !Newer(o[id], r[id]) {
    }
  }

  // ---------------------------------------------------------------------------------------------
  // Overlay on a committed snapshot
  // ---------------------------------------------------------------------------------------------

  function Scoped(plan: Plan, rows: seq<Assignment>): (r: seq<Assignment>)
    ensures forall a :: a in r <==> a in rows && BelongsTo(a, plan)
  {
    if rows == [] then []
    else (if BelongsTo(rows[0], plan) then [rows[0]] else []) + Scoped(plan, rows[1..])
  }

  /** The entries of a snapshot that belong to the plan; the last entry of an id wins. */
  function Committed(plan: Plan, entries: seq<Assignment>): (r: Assignments)
    ensures r.Valid()
    ensures forall id :: id in r.m ==> r.m[id].id == id && BelongsTo(r.m[id], plan) && r.m[id] in entries
    ensures forall a :: a in entries && BelongsTo(a, plan) ==> a.id in r.m
  {
    if entries == [] then EMPTY
    else
      var before := Committed(plan, entries[..|entries| - 1]);
      var a := entries[|entries| - 1];
      assert forall b :: b in entries <==> b in entries[..|entries| - 1] || b == a by {
        assert entries == entries[..|entries| - 1] + [a];
      }
      if BelongsTo(a, plan) then Set(before, a.id, a) else before
  }

  /** Where entries share an id, the last one of the plan counts. */
  lemma {:induction false} LastEntryWins(plan: Plan, entries: seq<Assignment>, i: nat)
    requires i < |entries| && BelongsTo(entries[i], plan)
    requires forall j :: i < j < |entries| && entries[j].id == entries[i].id ==> !BelongsTo(entries[j], plan)
    ensures Committed(plan, entries).m[entries[i].id] == entries[i]
  {
    hide BelongsTo;
    if i < |entries| - 1 {
      LastEntryWins(plan, entries[..|entries| - 1], i);
    }
  }

  function Raise(committed: Assignments, rows: map<Id, Assignment>): (r: Assignments)
    requires committed.Valid()
    ensures r.Valid()
  {
    OMap(committed.keys,
         map id | id in committed.m ::
           if id in rows && rows[id].version > committed.m[id].version then rows[id] else committed.m[id])
  }

  function Overlay(plan: Plan, rows: seq<Assignment>): (r: Assignments)
    ensures r.Valid()
  {
    var latest := Latest(Scoped(plan, rows), None, None);
    if plan.snapshot.None? then latest else Raise(Committed(plan, plan.snapshot.value), latest.m)
  }

  method OverlaySnapshot(plan: Plan, rows: seq<Assignment>) returns (r: Assignments)
    ensures r == Overlay(plan, rows)
  {
    hide Latest, Raise, Committed, Scoped;
    var latest := LatestRows(Scoped(plan, rows), None, None);
    if plan.snapshot.None? {
      return latest;
    }
    r := CommittedEntries(plan, plan.snapshot.value);
    LatestHoldsNewest(Scoped(plan, rows), None, None);
    r := RaiseRows(r, latest);
  }

  method CommittedEntries(plan: Plan, entries: seq<Assignment>) returns (r: Assignments)
    ensures r == Committed(plan, entries)
  {
    hide BelongsTo;
    r := EMPTY;
    for i := 0 to |entries|
      invariant r == Committed(plan, entries[..i])
    {
      assert entries[..i + 1][..i] == entries[..i];
      if BelongsTo(entries[i], plan) {
        r := Set(r, entries[i].id, entries[i]);
      }
    }
    assert entries[..|entries|] == entries;
  }

  /** `Raise` by the rows of the ids in `ks` alone. */
  function RaiseOnly(committed: Assignments, rows: map<Id, Assignment>, ks: seq<Id>): Assignments
  {
    OMap(committed.keys,
         map id | id in committed.m ::
           if id in ks && id in rows && rows[id].version > committed.m[id].version then rows[id] else committed.m[id])
  }

  lemma RaiseOnlySnoc(committed: Assignments, rows: map<Id, Assignment>, ks: seq<Id>, id: Id)
    requires committed.Valid() && id in rows && id !in ks
    ensures var r := RaiseOnly(committed, rows, ks);
            RaiseOnly(committed, rows, ks + [id]) ==
            if id in r.m && rows[id].version > r.m[id].version then Set(r, id, rows[id]) else r
  {
    var r := RaiseOnly(committed, rows, ks);
    var s := RaiseOnly(committed, rows, ks + [id]);
    forall x ensures x in ks + [id] <==> x in ks || x == id {
    }
    if id in r.m && rows[id].version > r.m[id].version {
      assert s.m == r.m[id := rows[id]];
    } else {
      assert s.m == r.m;
    }
  }

  lemma {:induction false} DistinctPrefix(s: seq<Id>, i: nat)
    requires Distinct(s) && i < |s|
    ensures s[i] !in s[..i]
  {
    if i > 0 {
      DistinctPrefix(s[1..], i - 1);
      assert s[..i] == [s[0]] + s[1..][..i - 1];
    }
  }

  method RaiseRows(committed: Assignments, latest: Assignments) returns (r: Assignments)
    requires committed.Valid() && latest.Valid() && forall id :: id in latest.m ==> latest.m[id].id == id
    ensures r == Raise(committed, latest.m)
  {
    hide RaiseOnly, Set, Distinct;
    r := committed;
    assert r == RaiseOnly(committed, latest.m, latest.keys[..0]) by { RaiseNone(committed, latest.m); }
    for i := 0 to |latest.keys|
      invariant r == RaiseOnly(committed, latest.m, latest.keys[..i])
    {
      var row := latest.m[latest.keys[i]];
      assert latest.keys[..i + 1] == latest.keys[..i] + [row.id];
      DistinctPrefix(latest.keys, i);
      RaiseOnlySnoc(committed, latest.m, latest.keys[..i], row.id);
      if row.id in r.m && row.version > r.m[row.id].version {
        r := Set(r, row.id, row);
      }
    }
    assert latest.keys[..|latest.keys|] == latest.keys;
    RaiseAll(committed, latest.m, latest.keys);
  }

  lemma RaiseNone(committed: Assignments, rows: map<Id, Assignment>)
    ensures committed == RaiseOnly(committed, rows, [])
  {
    assert committed.m == RaiseOnly(committed, rows, []).m;
  }

  lemma RaiseAll(committed: Assignments, rows: map<Id, Assignment>, ks: seq<Id>)
    requires committed.Valid() && forall id :: id in rows ==> id in ks
    ensures RaiseOnly(committed, rows, ks) == Raise(committed, rows)
  {
    assert RaiseOnly(committed, rows, ks).m == Raise(committed, rows).m;
  }

  /** Under a snapshot the overlay shows exactly the snapshot's ids, never at a lower version than committed, and each
      value is the committed one or a newest row of the plan. */
  lemma OverlayKeepsSnapshot(plan: Plan, rows: seq<Assignment>)
    requires plan.snapshot.Some?
    ensures var committed := Committed(plan, plan.snapshot.value).m;
            var shown := Overlay(plan, rows).m;
            && shown.Keys == committed.Keys
            && (forall id :: id in shown ==>
                  && shown[id].id == id
                  && BelongsTo(shown[id], plan)
                  && shown[id].version >= committed[id].version
                  && (shown[id] == committed[id] ||
                      (shown[id] in rows && shown[id].version > committed[id].version))
                  && (forall a :: a in rows && a.id == id && BelongsTo(a, plan) ==> a.version <= shown[id].version))
  {
    hide Overlay;
    var committed := Committed(plan, plan.snapshot.value).m;
    assert Overlay(plan, rows) == Raise(Committed(plan, plan.snapshot.value), Latest(Scoped(plan, rows), None, None).m) by {
      OverlayOfSnapshot(plan, rows);
    }
    forall id | id in committed
      ensures var shown := Overlay(plan, rows).m;
              && shown[id].id == id
              && BelongsTo(shown[id], plan)
              && shown[id].version >= committed[id].version
              && (shown[id] == committed[id] || (shown[id] in rows && shown[id].version > committed[id].version))
              && (forall a :: a in rows && a.id == id && BelongsTo(a, plan) ==> a.version <= shown[id].version)
    {
      RaisedAt(plan, rows, Committed(plan, plan.snapshot.value), id);
    }
  }

  lemma OverlayOfSnapshot(plan: Plan, rows: seq<Assignment>)
    requires plan.snapshot.Some?
    ensures Overlay(plan, rows) == Raise(Committed(plan, plan.snapshot.value), Latest(Scoped(plan, rows), None, None).m)
  {
  }

  lemma RaisedAt(plan: Plan, rows: seq<Assignment>, committed: Assignments, id: Id)
    requires committed.Valid() && id in committed.m && committed.m[id].id == id && BelongsTo(committed.m[id], plan)
    ensures var shown := Raise(committed, Latest(Scoped(plan, rows), None, None).m).m;
            && shown[id].id == id
            && BelongsTo(shown[id], plan)
            && shown[id].version >= committed.m[id].version
            && (shown[id] == committed.m[id] || (shown[id] in rows && shown[id].version > committed.m[id].version))
            && (forall a :: a in rows && a.id == id && BelongsTo(a, plan) ==> a.version <= shown[id].version)
  {
    hide Latest, BelongsTo, Scoped;
    LatestHoldsNewest(Scoped(plan, rows), None, None);
  }

  // ---------------------------------------------------------------------------------------------
  // The two views
  // ---------------------------------------------------------------------------------------------

  datatype Lookup<+T> = Found(value: T) | Missing | Ambiguous

  function PlanById(plans: seq<Plan>, id: string): (r: Lookup<Plan>)
    ensures r.Found? ==> r.value in plans && r.value.id == id && (forall p :: p in plans && p.id == id ==> p == r.value)
    ensures r.Missing? ==> forall p :: p in plans ==> p.id != id
  {
    if plans == [] then Missing
    else
      var rest := PlanById(plans[1..], id);
      if plans[0].id != id then rest else if rest.Missing? then Found(plans[0]) else Ambiguous
  }

  /** `find` fails when several rows use the id. */
  function RowById(records: seq<Record>, id: Id): (r: Lookup<Record>)
    ensures r.Found? ==> r.value in records && r.value.Key() == id &&
                         (forall x :: x in records && x.Key() == id ==> x == r.value)
    ensures r.Missing? ==> forall x :: x in records ==> x.Key() != id
  {
    if records == [] then Missing
    else
      var rest := RowById(records[1..], id);
      if records[0].Key() != id then rest else if rest.Missing? then Found(records[0]) else Ambiguous
  }

  function Values(o: Assignments): (r: seq<Assignment>)
    requires o.Valid()
    ensures forall a :: a in r <==> exists id :: id in o.m && o.m[id] == a
  {
    var r := seq(|o.keys|, i requires 0 <= i < |o.keys| => o.m[o.keys[i]]);
    assert forall id :: id in o.m ==> o.m[id] in r by {
      forall id | id in o.m ensures o.m[id] in r {
        var i :| 0 <= i < |o.keys| && o.keys[i] == id;
        assert r[i] == o.m[id];
      }
    }
    r
  }

  /** One plan's assignments; `None` when the plan id is ambiguous. */
  function List(plans: seq<Plan>, records: seq<Record>, tenant: string, planId: string): (r: Option<Assignments>)
    ensures r.Some? ==> r.value.Valid()
  {
    var latest := Latest(AssignmentRows(records), Some(tenant), Some(planId));
    match PlanById(plans, planId)
    case Ambiguous => None
    case Missing => Some(latest)
    case Found(plan) => Some(if plan.tenant != tenant then latest else Overlay(plan, Values(latest)))
  }

  method ListAssignments(plans: seq<Plan>, records: seq<Record>, tenant: string, planId: string)
    returns (r: Option<Assignments>)
    ensures r == List(plans, records, tenant, planId)
  {
    var latest := LatestRows(AssignmentRows(records), Some(tenant), Some(planId));
    match PlanById(plans, planId)
    case Ambiguous => return None;
    case Missing => return Some(latest);
    case Found(plan) =>
      if plan.tenant != tenant {
        return Some(latest);
      }
      var shown := OverlaySnapshot(plan, Values(latest));
      return Some(shown);
  }

  datatype Fetched = Value(assignment: Option<Assignment>) | Failed

  predicate HasInSnapshot(plan: Plan, tenant: string, id: Id)
  {
    plan.snapshot.Some? && exists a :: a in plan.snapshot.value && a.tenant == tenant && a.id == id
  }

  function SnapshotPlans(plans: seq<Plan>, tenant: string, id: Id): (r: seq<Plan>)
    ensures forall p :: p in r <==> p in plans && p.tenant == tenant && HasInSnapshot(p, tenant, id)
  {
    if plans == [] then []
    else
      (if plans[0].tenant == tenant && HasInSnapshot(plans[0], tenant, id) then [plans[0]] else []) +
      SnapshotPlans(plans[1..], tenant, id)
  }

  /** The row of the id, when it is an assignment of the tenant. */
  function TenantRow(row: Lookup<Record>, tenant: string): Option<Assignment>
  {
    if row.Found? && row.value.AssignmentRecord? && row.value.assignment.tenant == tenant
    then Some(row.value.assignment) else None
  }

  /** Some plan of the tenant with the row's plan id has a committed snapshot. */
  predicate HiddenBySnapshot(plans: seq<Plan>, tenant: string, a: Assignment)
  {
    exists p :: p in plans && p.tenant == tenant && p.id == a.plan && p.snapshot.Some?
  }

  predicate KnownPlan(plans: seq<Plan>, tenant: string, planId: string)
  {
    exists p :: p in plans && p.tenant == tenant && p.id == planId
  }

  /** One assignment by its id; `Failed` when an id is ambiguous or several plans committed the assignment. */
  function Get(plans: seq<Plan>, records: seq<Record>, tenant: string, id: Id): Fetched
  {
    var found := RowById(records, id);
    if found.Ambiguous? then Failed
    else
      var row := TenantRow(found, tenant);
      var snapshots := SnapshotPlans(plans, tenant, id);
      if row.Some? && !KnownPlan(plans, tenant, row.value.plan) && PlanById(plans, row.value.plan).Ambiguous? then Failed
      else if |snapshots| > 1 then Failed
      else if |snapshots| == 1 then
        var shown := Overlay(snapshots[0], if row.None? then [] else [row.value]).m;
        Value(if id in shown then Some(shown[id]) else None)
      else if row.Some? && HiddenBySnapshot(plans, tenant, row.value) then Value(None)
      else Value(row)
  }

  function At(o: Assignments, id: Id): Option<Assignment>
  {
    if id in o.m then Some(o.m[id]) else None
  }

  function ListedAt(plans: seq<Plan>, records: seq<Record>, tenant: string, planId: string, id: Id): Option<Assignment>
  {
    var listed := List(plans, records, tenant, planId);
    if listed.None? then None else At(listed.value, id)
  }

  /** `row` is the only assignment of the id among `rows`, or there is none. */
  ghost predicate OnlyRow(rows: seq<Assignment>, id: Id, row: Option<Assignment>)
  {
    && (row.Some? ==> row.value in rows && row.value.id == id)
    && (forall a :: a in rows && a.id == id ==> row == Some(a))
  }

  lemma LatestOfOnlyRow(rows: seq<Assignment>, tenant: Option<string>, plan: Option<string>, id: Id, row: Option<Assignment>)
    requires OnlyRow(rows, id, row)
    ensures At(Latest(rows, tenant, plan), id) ==
            if row.Some? && Wanted(row.value, tenant, plan) then row else None
    ensures OnlyRow(Values(Latest(rows, tenant, plan)), id,
                    if row.Some? && Wanted(row.value, tenant, plan) then row else None)
  {
    hide Latest, Wanted, Newer;
    LatestHoldsNewest(rows, tenant, plan);
  }

  /** What the overlay shows for an id that has at most one row. */
  lemma OverlayOfOnlyRow(plan: Plan, rows: seq<Assignment>, id: Id, row: Option<Assignment>)
    requires OnlyRow(rows, id, row)
    ensures var own := if row.Some? && BelongsTo(row.value, plan) then row else None;
            At(Overlay(plan, rows), id) ==
            if plan.snapshot.None? then own
            else
              var committed := At(Committed(plan, plan.snapshot.value), id);
              if committed.Some? && own.Some? && own.value.version > committed.value.version then own else committed
  {
    hide Latest, Committed, BelongsTo, Newer;
    var own := if row.Some? && BelongsTo(row.value, plan) then row else None;
    assert OnlyRow(Scoped(plan, rows), id, own);
    LatestOfOnlyRow(Scoped(plan, rows), None, None, id, own);
    assert own.Some? ==> Wanted(own.value, None, None);
  }

  lemma RowIsOnly(records: seq<Record>, tenant: string, id: Id)
    requires !RowById(records, id).Ambiguous?
    ensures var found := RowById(records, id);
            OnlyRow(AssignmentRows(records), id, if found.Found? && found.value.AssignmentRecord? then Some(found.value.assignment) else None)
  {
    forall a | a in AssignmentRows(records) && a.id == id ensures AssignmentRecord(a) in records && AssignmentRecord(a).Key() == id {
    }
  }

  ghost predicate DistinctPlans(plans: seq<Plan>)
  {
    forall i, j :: 0 <= i < j < |plans| ==> plans[i].id != plans[j].id
  }

  lemma {:induction false} DistinctPlansFound(plans: seq<Plan>, p: Plan)
    requires DistinctPlans(plans) && p in plans
    ensures PlanById(plans, p.id) == Found(p)
  {
    if plans[0] == p {
      NoSuchPlan(plans[1..], p.id);
    } else {
      DistinctPlansFound(plans[1..], p);
    }
  }

  lemma {:induction false} NoSuchPlan(plans: seq<Plan>, id: string)
    requires forall p :: p in plans ==> p.id != id
    ensures PlanById(plans, id).Missing?
  {
    if plans != [] {
      NoSuchPlan(plans[1..], id);
    }
  }

  function RowOf(records: seq<Record>, tenant: string, id: Id): Option<Assignment>
  {
    TenantRow(RowById(records, id), tenant)
  }

  /** What the list of one plan shows for an id with at most one row. */
  lemma ListedAtIs(plans: seq<Plan>, records: seq<Record>, tenant: string, planId: string, id: Id)
    requires DistinctPlans(plans) && !RowById(records, id).Ambiguous?
    ensures var row := RowOf(records, tenant, id);
            var own := if row.Some? && row.value.plan == planId then row else None;
            var p := PlanById(plans, planId);
            ListedAt(plans, records, tenant, planId, id) ==
            if !p.Found? || p.value.tenant != tenant then own
            else
              var live := if own.Some? && own.value.event == p.value.event then own else None;
              if p.value.snapshot.None? then live
              else
                var committed := At(Committed(p.value, p.value.snapshot.value), id);
                if committed.Some? && live.Some? && live.value.version > committed.value.version then live else committed
    ensures !PlanById(plans, planId).Ambiguous?
  {
    hide Latest, Committed, Overlay, RowById;
    if exists p :: p in plans && p.id == planId {
      var p :| p in plans && p.id == planId;
      DistinctPlansFound(plans, p);
    } else {
      NoSuchPlan(plans, planId);
    }
    var row := RowOf(records, tenant, id);
    var own := if row.Some? && row.value.plan == planId then row else None;
    var found := RowById(records, id);
    var any := if found.Found? && found.value.AssignmentRecord? then Some(found.value.assignment) else None;
    RowIsOnly(records, tenant, id);
    var rows := AssignmentRows(records);
    LatestOfOnlyRow(rows, Some(tenant), Some(planId), id, any);
    var p := PlanById(plans, planId);
    if p.Found? && p.value.tenant == tenant {
      OverlayOfOnlyRow(p.value, Values(Latest(rows, Some(tenant), Some(planId))), id, own);
    }
  }

  /** At most one plan of the tenant committed the assignment, and the row of the assignment is of that plan. */
  ghost predicate UsedByOnePlan(plans: seq<Plan>, records: seq<Record>, tenant: string, id: Id)
  {
    var snapshots := SnapshotPlans(plans, tenant, id);
    var row := RowOf(records, tenant, id);
    |snapshots| <= 1 && (|snapshots| == 1 && row.Some? ==> row.value.plan == snapshots[0].id)
  }

  /** The row's event is its plan's, where the plan of the tenant has no snapshot to decide. */
  predicate EventAgrees(plans: seq<Plan>, tenant: string, row: Option<Assignment>)
  {
    row.Some? ==>
      var p := PlanById(plans, row.value.plan);
      p.Found? && p.value.tenant == tenant && p.value.snapshot.None? ==> p.value.event == row.value.event
  }

  function OfPlan(a: Option<Assignment>, planId: string): Option<Assignment>
  {
    if a.Some? && a.value.plan == planId then a else None
  }

  /** What `Get` returns, told by plans. */
  lemma GotIs(plans: seq<Plan>, records: seq<Record>, tenant: string, id: Id)
    requires DistinctPlans(plans) && !RowById(records, id).Ambiguous?
    requires UsedByOnePlan(plans, records, tenant, id)
    ensures var row := RowOf(records, tenant, id);
            var snapshots := SnapshotPlans(plans, tenant, id);
            var got := Get(plans, records, tenant, id);
            && got.Value?
            && (|snapshots| == 1 ==>
                  && PlanById(plans, snapshots[0].id) == Found(snapshots[0])
                  && got.assignment == ListedAt(plans, records, tenant, snapshots[0].id, id)
                  && (got.assignment.Some? ==> got.assignment.value.plan == snapshots[0].id))
            && (|snapshots| == 0 ==>
                  got.assignment ==
                  if row.Some? && (var p := PlanById(plans, row.value.plan);
                                   p.Found? && p.value.tenant == tenant && p.value.snapshot.Some?)
                  then None else row)
  {
    hide Latest, Committed, Overlay, RowById, List;
    var row := RowOf(records, tenant, id);
    var snapshots := SnapshotPlans(plans, tenant, id);
    if row.Some? {
      ListedAtIs(plans, records, tenant, row.value.plan, id);
      forall p | p in plans && p.id == row.value.plan ensures PlanById(plans, row.value.plan) == Found(p) {
        DistinctPlansFound(plans, p);
      }
    }
    if |snapshots| == 1 {
      var p := snapshots[0];
      assert p in snapshots;
      DistinctPlansFound(plans, p);
      ListedAtIs(plans, records, tenant, p.id, id);
      OverlayOfOnlyRow(p, if row.None? then [] else [row.value], id, row);
    }
  }

  /** Under one plan an assignment is got by id exactly when it is listed by its plan, with the same value, if and only
      if its row's event agrees with the plan. */
  lemma GetAgreesWithList(plans: seq<Plan>, records: seq<Record>, tenant: string, id: Id)
    requires DistinctPlans(plans) && !RowById(records, id).Ambiguous?
    requires UsedByOnePlan(plans, records, tenant, id)
    ensures var got := Get(plans, records, tenant, id);
            && got.Value?
            && ((forall planId :: ListedAt(plans, records, tenant, planId, id) == OfPlan(got.assignment, planId))
                <==> EventAgrees(plans, tenant, RowOf(records, tenant, id)))
  {
    hide Latest, Overlay, RowById, List, Get, ListedAt;
    GotIs(plans, records, tenant, id);
    var row := RowOf(records, tenant, id);
    var got := Get(plans, records, tenant, id);
    if EventAgrees(plans, tenant, row) {
      forall planId ensures ListedAt(plans, records, tenant, planId, id) == OfPlan(got.assignment, planId) {
        ListedAtIs(plans, records, tenant, planId, id);
        NotInOtherSnapshots(plans, tenant, planId, id);
      }
    } else {
      ListedAtIs(plans, records, tenant, row.value.plan, id);
      assert ListedAt(plans, records, tenant, row.value.plan, id) != OfPlan(got.assignment, row.value.plan);
    }
  }

  lemma NotInOtherSnapshots(plans: seq<Plan>, tenant: string, planId: string, id: Id)
    requires |SnapshotPlans(plans, tenant, id)| <= 1
    ensures var p := PlanById(plans, planId);
            var snapshots := SnapshotPlans(plans, tenant, id);
            p.Found? && p.value.tenant == tenant && p.value.snapshot.Some? && !(|snapshots| == 1 && p.value == snapshots[0]) ==>
              At(Committed(p.value, p.value.snapshot.value), id) == None
  {
    hide PlanById;
    var p := PlanById(plans, planId);
    var snapshots := SnapshotPlans(plans, tenant, id);
    if p.Found? && p.value.tenant == tenant && p.value.snapshot.Some? {
      var committed := Committed(p.value, p.value.snapshot.value);
      if id in committed.m {
        assert HasInSnapshot(p.value, tenant, id);
        assert p.value in snapshots;
      }
    }
  }
}
