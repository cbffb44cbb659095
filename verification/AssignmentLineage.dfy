/** What replacements and distributions keep on plans without a snapshot: successor links, the finality of superseded
    assignments, versions, and the exact generation a distribution leaves. */
module AssignmentLineage {
  import opened Basics
  import opened AssignmentModel
  import opened AssignmentOverlay
  import opened AssignmentGenerations

  /** A successor link leads from a superseded assignment to an assignment that points back. */
  ghost predicate LinkOk(table: Table, id: Id)
  {
    HasAssignment(table, id) && table[id].assignment.successor.Some? ==>
      var next := table[id].assignment.successor.value;
      && table[id].assignment.status == Superseded
      && HasAssignment(table, next)
      && table[next].assignment.predecessor == Some(id)
  }

  ghost predicate LinksOk(table: Table)
  {
    forall id :: id in table ==> LinkOk(table, id)
  }

  /** Ranks rise along every successor link. */
  ghost predicate Ranks(table: Table, rank: map<Id, nat>)
  {
    && (forall id :: id in table ==> id in rank)
    && (forall id :: HasAssignment(table, id) && table[id].assignment.successor.Some? ==>
          table[id].assignment.successor.value in rank && rank[id] < rank[table[id].assignment.successor.value])
  }

  ghost predicate LineageOk(table: Table)
  {
    Keyed(table) && LinksOk(table) && exists rank: map<Id, nat> :: Ranks(table, rank)
  }

  /** The assignment reached after following `steps` successor links. */
  function Follow(table: Table, id: Id, steps: nat): Option<Id>
    decreases steps
  {
    if steps == 0 then Some(id)
    else if HasAssignment(table, id) && table[id].assignment.successor.Some?
    then Follow(table, table[id].assignment.successor.value, steps - 1)
    else None
  }

  /** No chain of successors comes back to where it started. */
  lemma LineageHasNoCycle(table: Table, id: Id, steps: nat)
    requires LineageOk(table) && steps > 0
    ensures Follow(table, id, steps) != Some(id)
  {
    var rank: map<Id, nat> :| Ranks(table, rank);
    if Follow(table, id, steps).Some? {
      FollowRises(table, rank, id, steps);
    }
  }

  lemma {:induction false} FollowRises(table: Table, rank: map<Id, nat>, id: Id, steps: nat)
    requires Ranks(table, rank) && steps > 0 && Follow(table, id, steps).Some?
    ensures id in rank && Follow(table, id, steps).value in rank && rank[id] < rank[Follow(table, id, steps).value]
    decreases steps
  {
    if steps > 1 {
      FollowRises(table, rank, table[id].assignment.successor.value, steps - 1);
    }
  }

  predicate NoSnapshots(plans: seq<Plan>)
  {
    forall p :: p in plans ==> p.snapshot.None?
  }

  /** Distributions that leave the lineage fields of their assignments to the store. */
  predicate NoLineage(d: Distribution)
  {
    forall a :: a in d.desired ==>
      a.predecessor.None? && a.successor.None? && a.supersededReason.None? && a.lineage.None?
  }

  // ---------------------------------------------------------------------------------------------
  // Replacement
  // ---------------------------------------------------------------------------------------------

  /** A replacement changes one assignment and adds one. */
  lemma ReplacementWrites(table: Table, plan: Plan, r: Replacement)
    requires Keyed(table) && plan.snapshot.None? && r.previous in Shown(table, plan)
    ensures var shown := Shown(table, plan);
            Commit(table, NextByReplacement(shown, r)) ==
            table[r.previous := AssignmentRecord(Retire(shown[r.previous], Some(r.successor.id), r.reason, r.successor.updatedAt))]
                 [r.successor.id := AssignmentRecord(Succeed(r.successor, r.previous, r.reason))]
  {
    hide BelongsTo, Retire, Succeed;
    var shown := Shown(table, plan);
    var t := Commit(table, NextByReplacement(shown, r));
    var u := table[r.previous := AssignmentRecord(Retire(shown[r.previous], Some(r.successor.id), r.reason, r.successor.updatedAt))]
                  [r.successor.id := AssignmentRecord(Succeed(r.successor, r.previous, r.reason))];
    assert t.Keys == u.Keys;
    forall id | id in t ensures t[id] == u[id] {
    }
  }

  lemma ReplacementKeepsLineage(plans: seq<Plan>, table: Table, scope: Scope, r: Replacement)
    requires LineageOk(table) && NoSnapshots(plans)
    ensures LineageOk(Replaced(plans, table, scope, r))
  {
    hide Admitted, Matches, Blank, LineageOk;
    var plan := ScopePlan(plans, scope);
    if CanReplace(plan, table, scope, r) {
      assert Keyed(table) by { LineageParts(table); }
      ReplacementWrites(table, plan.value, r);
      var shown := Shown(table, plan.value);
      LinkedPairKeepsLineage(table, shown[r.previous], r.successor, r.reason);
    }
  }

  lemma LineageParts(table: Table)
    requires LineageOk(table)
    ensures Keyed(table) && LinksOk(table)
  {
  }

  lemma LinkedPairKeepsLineage(table: Table, a: Assignment, b: Assignment, reason: string)
    requires LineageOk(table) && a.id in table && table[a.id] == AssignmentRecord(a) && a.status != Superseded
    requires b.id !in table
    ensures LineageOk(table[a.id := AssignmentRecord(Retire(a, Some(b.id), reason, b.updatedAt))]
                           [b.id := AssignmentRecord(Succeed(b, a.id, reason))])
  {
    var t := table[a.id := AssignmentRecord(Retire(a, Some(b.id), reason, b.updatedAt))]
                  [b.id := AssignmentRecord(Succeed(b, a.id, reason))];
    forall id | id in t ensures LinkOk(t, id) {
      assert id in table ==> LinkOk(table, id);
    }
    var rank: map<Id, nat> :| Ranks(table, rank);
    var r := rank[b.id := rank[a.id] + 1];
    assert LinkOk(table, a.id);
    forall id | HasAssignment(t, id) && t[id].assignment.successor.Some?
      ensures t[id].assignment.successor.value in r && r[id] < r[t[id].assignment.successor.value]
    {
      assert id in table ==> LinkOk(table, id);
    }
    assert Ranks(t, r);
  }

  // ---------------------------------------------------------------------------------------------
  // Distribution
  // ---------------------------------------------------------------------------------------------

  /** What a distribution leaves at one id. */
  lemma DistributionAt(shown: map<Id, Assignment>, scope: Scope, d: Distribution, at: int, id: Id)
    ensures var next := NextByDistribution(shown, scope, d, at);
            && (id in next <==> id in shown || exists a :: a in d.desired && a.id == id)
            && (id in next ==>
                  || (exists a :: a in d.desired && a.id == id && next[id] == Merge(shown, a))
                  || (id in shown && id in Dropped(shown, scope, d) && next[id] == Retire(shown[id], None, d.reason, at))
                  || (id in shown && id !in ActiveTarget(shown, scope, d) && next[id] == shown[id]))
  {
    hide ActiveTarget, Retire, Merge, WithDesired;
    WithDesiredAt(RetireAll(shown, Dropped(shown, scope, d), d.reason, at), shown, d.desired, id);
  }

  /** A change of one id that keeps the lineage: an assignment that is not superseded stays without a successor and
      keeps its predecessor, a superseded one stays as it is, and a new one has no successor. */
  ghost predicate SafeWrite(table: Table, id: Id, a: Assignment)
  {
    && a.id == id
    && (id in table ==>
          && table[id].AssignmentRecord?
          && (AssignmentRecord(a) == table[id] ||
              (table[id].assignment.status != Superseded && a.successor.None? &&
               a.predecessor == table[id].assignment.predecessor)))
    && (id !in table ==> a.successor.None?)
  }

  lemma SafeWritesKeepLineage(table: Table, next: map<Id, Assignment>, done: set<Id>)
    requires LineageOk(table)
    requires forall id :: id in next ==> SafeWrite(table, id, next[id])
    ensures LineageOk(CommitPart(table, next, done))
  {
    hide CommitPart;
    var t := CommitPart(table, next, done);
    forall id | id in t ensures LinkOk(t, id) {
      assert id in table ==> LinkOk(table, id);
    }
    var rank: map<Id, nat> :| Ranks(table, rank);
    var r: map<Id, nat> := map id | id in t.Keys + rank.Keys :: if id in rank then rank[id] else 0;
    assert Ranks(t, r);
  }

  lemma DistributionIsSafe(table: Table, plan: Plan, scope: Scope, d: Distribution, at: int, id: Id)
    requires LineageOk(table) && plan.snapshot.None? && NoLineage(d)
    requires forall a :: a in d.desired ==> CanAssign(Shown(table, plan), table, scope, a)
    requires id in NextByDistribution(Shown(table, plan), scope, d, at)
    ensures SafeWrite(table, id, NextByDistribution(Shown(table, plan), scope, d, at)[id])
  {
    hide NextByDistribution, Matches, BelongsTo;
    var shown := Shown(table, plan);
    var next := NextByDistribution(shown, scope, d, at);
    DistributionAt(shown, scope, d, at, id);
    LineageParts(table);
    assert id in table ==> LinkOk(table, id);
    if a :| a in d.desired && a.id == id && next[id] == Merge(shown, a) {
      assert CanAssign(shown, table, scope, a);
    }
  }

  /** A distribution keeps the lineage, also when it stops after any part of its writes. */
  lemma DistributionKeepsLineage(plans: seq<Plan>, table: Table, scope: Scope, d: Distribution, at: int, done: set<Id>)
    requires LineageOk(table) && NoSnapshots(plans) && NoLineage(d)
    ensures LineageOk(Distributed(plans, table, scope, d, at, done))
  {
    hide LineageOk, SafeWrite, NextByDistribution, Shown, CanAssign, Admitted, IsRetirementTime, PreviewStands;
    var plan := ScopePlan(plans, scope);
    if CanDistribute(plan, table, scope, d) && IsRetirementTime(Shown(table, plan.value), plan.value, scope, d, at) {
      var next := NextByDistribution(Shown(table, plan.value), scope, d, at);
      forall id | id in next ensures SafeWrite(table, id, next[id]) {
        DistributionIsSafe(table, plan.value, scope, d, at, id);
      }
      SafeWritesKeepLineage(table, next, done);
    }
  }

  // ---------------------------------------------------------------------------------------------
  // An interrupted replacement
  // ---------------------------------------------------------------------------------------------

  /** A replacement that stopped part-way leaves the lineage whole if and only if it did not stop between its two
      writes. */
  lemma InterruptedReplacement(table: Table, plan: Plan, scope: Scope, r: Replacement, done: set<Id>)
    requires LineageOk(table) && plan.snapshot.None? && CanReplace(Some(plan), table, scope, r)
    ensures var t := CommitPart(table, NextByReplacement(Shown(table, plan), r), done);
            LineageOk(t) <==> (r.previous in done ==> r.successor.id in done)
  {
    hide Admitted, Matches, Blank, LineageOk, CommitPart;
    LineageParts(table);
    var shown := Shown(table, plan);
    var next := NextByReplacement(shown, r);
    var t := CommitPart(table, next, done);
    if r.previous in done && r.successor.id in done {
      assert t == Commit(table, next) by { assert t.Keys == Commit(table, next).Keys; }
      ReplacementWrites(table, plan, r);
      LinkedPairKeepsLineage(table, shown[r.previous], r.successor, r.reason);
    } else if r.previous in done {
      assert t[r.previous].assignment.successor == Some(r.successor.id) && r.successor.id !in t;
      BrokenLink(t, r.previous);
    } else {
      LoneSuccessorKeepsLineage(table, t, r.successor.id);
    }
  }

  lemma BrokenLink(t: Table, id: Id)
    requires id in t && !LinkOk(t, id)
    ensures !LineageOk(t)
  {
  }

  lemma LoneSuccessorKeepsLineage(table: Table, t: Table, id: Id)
    requires LineageOk(table) && id !in table
    requires forall o :: o in t <==> o in table || (o == id && id in t)
    requires forall o :: o in table ==> t[o] == table[o]
    requires id in t ==> t[id].Key() == id && t[id].AssignmentRecord? && t[id].assignment.successor.None?
    ensures LineageOk(t)
  {
    forall o | o in t ensures LinkOk(t, o) {
      assert o in table ==> LinkOk(table, o);
    }
    var rank: map<Id, nat> :| Ranks(table, rank);
    var r := if id in rank then rank else rank[id := 0];
    assert Ranks(t, r);
  }

  // ---------------------------------------------------------------------------------------------
  // Exactness of a distribution
  // ---------------------------------------------------------------------------------------------

  /** What the plan shows after its generation was committed is that generation. */
  lemma GenerationIsReread(table: Table, plan: Plan, next: map<Id, Assignment>)
    requires Keyed(table) && plan.snapshot.None?
    requires forall id :: id in Shown(table, plan) ==> id in next
    requires forall id :: id in next ==> BelongsTo(next[id], plan)
    ensures Shown(Commit(table, next), plan) == next
  {
    hide BelongsTo;
    var again := Shown(Commit(table, next), plan);
    assert again.Keys == next.Keys;
    forall id | id in next ensures again[id] == next[id] {
    }
  }

  /** After a distribution the active assignments over the target submissions are exactly the desired ones, each as
      desired; dropped ones are superseded one version on; nothing else changed; and the plan lists exactly the
      committed generation. */
  lemma DistributionIsExact(plans: seq<Plan>, table: Table, scope: Scope, d: Distribution, at: int)
    requires Keyed(table) && NoSnapshots(plans)
    requires CanDistribute(ScopePlan(plans, scope), table, scope, d)
    requires IsRetirementTime(Shown(table, ScopePlan(plans, scope).value), ScopePlan(plans, scope).value, scope, d, at)
    ensures var plan := ScopePlan(plans, scope).value;
            var shown := Shown(table, plan);
            var next := NextByDistribution(shown, scope, d, at);
            var t := Distributed(plans, table, scope, d, at, next.Keys);
            var after := Shown(t, plan);
            && after == next
            && (forall id :: id in after && InTarget(shown, scope, d, after[id]) && IsActive(after[id].status) <==>
                  exists a :: a in d.desired && a.id == id)
            && (forall a :: a in d.desired ==> a.id in after && after[a.id] == Merge(shown, a))
            && (forall id :: id in Dropped(shown, scope, d) ==>
                  && id in after && after[id] == Retire(shown[id], None, d.reason, at)
                  && after[id].version == shown[id].version + 1)
            && (forall id :: id !in ActiveTarget(shown, scope, d) && !(exists a :: a in d.desired && a.id == id) ==>
                  (id in t <==> id in table) && (id in table ==> t[id] == table[id]))
  {
    hide NextByDistribution, Shown, Admitted, PreviewStands, CommitPart, IsRetirementTime, CanAssign, Retire, InTarget, Dropped, ActiveTarget;
    var plan := ScopePlan(plans, scope).value;
    var shown := Shown(table, plan);
    var next := NextByDistribution(shown, scope, d, at);
    var t := Commit(table, next);
    assert t == Distributed(plans, table, scope, d, at, next.Keys);
    forall id | id in next ensures BelongsTo(next[id], plan) {
      GenerationBelongs(plans, table, scope, d, at, id);
    }
    forall id | id in shown ensures id in next {
      DistributionAt(shown, scope, d, at, id);
    }
    GenerationIsReread(table, plan, next);
    forall id ensures id in next && InTarget(shown, scope, d, next[id]) && IsActive(next[id].status) <==>
                      exists a :: a in d.desired && a.id == id
    {
      ActiveIsDesired(table, plan, shown, scope, d, at, id);
    }
    forall a | a in d.desired ensures a.id in next && next[a.id] == Merge(shown, a) {
      DesiredAt(shown, scope, d, at, a);
    }
    forall id | id in Dropped(shown, scope, d)
      ensures id in shown && id in next && next[id] == Retire(shown[id], None, d.reason, at) && next[id].version == shown[id].version + 1
    {
      DroppedAt(shown, scope, d, at, id);
    }
    forall id | id !in ActiveTarget(shown, scope, d) && !(exists a :: a in d.desired && a.id == id)
      ensures (id in t <==> id in table) && (id in table ==> t[id] == table[id])
    {
      OthersAt(table, plan, scope, d, at, id);
    }
  }

  /** A distribution reports as active the desired assignments and, beside them, the abstained ones of its target. */
  lemma DistributionReports(plans: seq<Plan>, table: Table, scope: Scope, d: Distribution, at: int, id: Id)
    requires CanDistribute(ScopePlan(plans, scope), table, scope, d)
    ensures var shown := Shown(table, ScopePlan(plans, scope).value);
            id in ReportedByDistribution(shown, scope, d, at) <==>
            || (exists a :: a in d.desired && a.id == id)
            || (id in shown && InTarget(shown, scope, d, shown[id]) && shown[id].status == Abstained)
  {
    hide NextByDistribution, Shown, Admitted, PreviewStands, CanAssign, Retire, InTarget;
    var plan := ScopePlan(plans, scope).value;
    var shown := Shown(table, plan);
    DistributionAt(shown, scope, d, at, id);
    ActiveIsDesired(table, plan, shown, scope, d, at, id);
    RetiredStatus(shown, d.reason, at, id);
    if a :| a in d.desired && a.id == id {
      AssignableIsActive(shown, table, scope, a);
    }
  }

  lemma RetiredStatus(shown: map<Id, Assignment>, reason: string, at: int, id: Id)
    ensures id in shown ==> Retire(shown[id], None, reason, at).status == Superseded
  {
  }

  lemma AssignableIsActive(shown: map<Id, Assignment>, table: Table, scope: Scope, a: Assignment)
    requires CanAssign(shown, table, scope, a)
    ensures IsActive(a.status) && (a.id in shown ==> IsActive(shown[a.id].status))
  {
  }

  lemma DesiredAt(shown: map<Id, Assignment>, scope: Scope, d: Distribution, at: int, a: Assignment)
    requires DistinctIds(d.desired) && a in d.desired
    ensures var next := NextByDistribution(shown, scope, d, at); a.id in next && next[a.id] == Merge(shown, a)
  {
    hide ActiveTarget, Retire, Merge, RetireAll, DistinctIds, WithDesired;
    var next := NextByDistribution(shown, scope, d, at);
    WithDesiredAt(RetireAll(shown, Dropped(shown, scope, d), d.reason, at), shown, d.desired, a.id);
    var b :| b in d.desired && b.id == a.id && next[a.id] == Merge(shown, b);
    SameIdSameAssignment(d.desired, a, b);
  }

  lemma SameIdSameAssignment(desired: seq<Assignment>, a: Assignment, b: Assignment)
    requires DistinctIds(desired) && a in desired && b in desired && a.id == b.id
    ensures a == b
  {
    var i :| 0 <= i < |desired| && desired[i] == a;
    var j :| 0 <= j < |desired| && desired[j] == b;
    assert i == j;
  }

  lemma DroppedAt(shown: map<Id, Assignment>, scope: Scope, d: Distribution, at: int, id: Id)
    requires id in Dropped(shown, scope, d)
    ensures var next := NextByDistribution(shown, scope, d, at);
            && id in shown && id in next && next[id] == Retire(shown[id], None, d.reason, at)
            && next[id].version == shown[id].version + 1
  {
    hide InTarget, WithDesired, Merge;
    WithDesiredAt(RetireAll(shown, Dropped(shown, scope, d), d.reason, at), shown, d.desired, id);
  }

  lemma OthersAt(table: Table, plan: Plan, scope: Scope, d: Distribution, at: int, id: Id)
    requires Keyed(table) && plan.snapshot.None?
    requires id !in ActiveTarget(Shown(table, plan), scope, d) && !(exists a :: a in d.desired && a.id == id)
    ensures var t := Commit(table, NextByDistribution(Shown(table, plan), scope, d, at));
            (id in t <==> id in table) && (id in table ==> t[id] == table[id])
  {
    hide NextByDistribution, BelongsTo, ActiveTarget;
    DistributionAt(Shown(table, plan), scope, d, at, id);
  }

  lemma GenerationBelongs(plans: seq<Plan>, table: Table, scope: Scope, d: Distribution, at: int, id: Id)
    requires NoSnapshots(plans) && CanDistribute(ScopePlan(plans, scope), table, scope, d)
    requires id in NextByDistribution(Shown(table, ScopePlan(plans, scope).value), scope, d, at)
    ensures BelongsTo(NextByDistribution(Shown(table, ScopePlan(plans, scope).value), scope, d, at)[id],
                      ScopePlan(plans, scope).value)
  {
    hide NextByDistribution, Admitted, PreviewStands, InTarget;
    var plan := ScopePlan(plans, scope).value;
    DistributionAt(Shown(table, plan), scope, d, at, id);
  }

  lemma ActiveIsDesired(table: Table, plan: Plan, shown: map<Id, Assignment>, scope: Scope, d: Distribution, at: int, id: Id)
    requires DistinctIds(d.desired) && forall a :: a in d.desired ==> CanAssign(shown, table, scope, a)
    ensures var next := NextByDistribution(shown, scope, d, at);
            id in next && InTarget(shown, scope, d, next[id]) && IsActive(next[id].status) <==>
            exists a :: a in d.desired && a.id == id
  {
    hide NextByDistribution, Matches, TargetSubmissions;
    var next := NextByDistribution(shown, scope, d, at);
    DistributionAt(shown, scope, d, at, id);
    if a :| a in d.desired && a.id == id {
      DesiredAt(shown, scope, d, at, a);
      assert CanAssign(shown, table, scope, a);
      assert a.submission in TargetSubmissions(shown, scope, d) by { DesiredIsTarget(shown, scope, d, a); }
      assert Matches(next[id], scope) by { MergeMatches(shown, scope, a); }
    }
  }

  lemma DesiredIsTarget(shown: map<Id, Assignment>, scope: Scope, d: Distribution, a: Assignment)
    requires a in d.desired
    ensures a.submission in TargetSubmissions(shown, scope, d)
  {
  }

  lemma MergeMatches(shown: map<Id, Assignment>, scope: Scope, a: Assignment)
    requires Matches(a, scope)
    ensures Matches(Merge(shown, a), scope)
  {
  }

  // ---------------------------------------------------------------------------------------------
  // Runs
  // ---------------------------------------------------------------------------------------------

  /** A replacement or a distribution; `done` are the ids it wrote before it ended or crashed. */
  datatype Event =
    | Replace(scope: Scope, replacement: Replacement, done: set<Id>)
    | Distribute(scope: Scope, distribution: Distribution, at: int, done: set<Id>)

  ghost function Step(plans: seq<Plan>, table: Table, e: Event): Table
  {
    match e
    case Replace(scope, r, done) => ReplacedPart(plans, table, scope, r, done)
    case Distribute(scope, d, at, done) => Distributed(plans, table, scope, d, at, done)
  }

  ghost function Exec(plans: seq<Plan>, table: Table, events: seq<Event>): Table
  {
    if events == [] then table
    else Step(plans, Exec(plans, table, events[..|events| - 1]), events[|events| - 1])
  }

  ghost predicate NoLineageEvents(events: seq<Event>)
  {
    forall i :: 0 <= i < |events| && events[i].Distribute? ==> NoLineage(events[i].distribution)
  }

  /** No replacement stopped between its two writes. */
  predicate NotSplit(e: Event)
  {
    e.Replace? && e.replacement.previous in e.done ==> e.replacement.successor.id in e.done
  }

  ghost predicate NoneSplit(events: seq<Event>)
  {
    forall i :: 0 <= i < |events| ==> NotSplit(events[i])
  }

  /** What may become of one row: an assignment keeps its backward link and never loses a version, a superseded one is
      final, and rows of other kinds are left alone. */
  ghost predicate OnwardRow(x: Record, y: Record)
  {
    && (x.OtherRecord? ==> y == x)
    && (x.AssignmentRecord? ==>
          && y.AssignmentRecord?
          && y.assignment.version >= x.assignment.version
          && y.assignment.predecessor == x.assignment.predecessor
          && (x.assignment.status == Superseded ==> y == x))
  }

  ghost predicate Onward(t: Table, u: Table)
  {
    forall id :: id in t ==> id in u && OnwardRow(t[id], u[id])
  }

  /** A row that a step adds: the successor of an assignment that was not superseded, or a desired one. */
  ghost predicate NewRow(t: Table, y: Record)
  {
    && y.AssignmentRecord?
    && (y.assignment.predecessor.Some? ==>
          var previous := y.assignment.predecessor.value;
          HasAssignment(t, previous) && t[previous].assignment.status != Superseded)
  }

  /** What a step may do to the table. */
  ghost predicate StepOk(t: Table, u: Table)
  {
    Keyed(u) && Onward(t, u) && forall id :: id in u && id !in t ==> NewRow(t, u[id])
  }

  lemma SameIsStepOk(table: Table)
    requires Keyed(table)
    ensures StepOk(table, table)
  {
  }

  lemma ReplacementWritesOnward(table: Table, plan: Plan, scope: Scope, r: Replacement, id: Id)
    requires Keyed(table) && plan.snapshot.None? && CanReplace(Some(plan), table, scope, r)
    requires id in NextByReplacement(Shown(table, plan), r)
    ensures var y := AssignmentRecord(NextByReplacement(Shown(table, plan), r)[id]);
            && y.Key() == id
            && (id in table ==> OnwardRow(table[id], y))
            && (id !in table ==> NewRow(table, y))
  {
    hide Admitted, Matches, Blank, BelongsTo;
  }

  lemma ReplacementIsStepOk(plans: seq<Plan>, table: Table, scope: Scope, r: Replacement, done: set<Id>)
    requires Keyed(table) && NoSnapshots(plans)
    ensures StepOk(table, ReplacedPart(plans, table, scope, r, done))
  {
    hide OnwardRow, NewRow, NextByReplacement, Shown, CanReplace, CommitPart;
    var plan := ScopePlan(plans, scope);
    var t := ReplacedPart(plans, table, scope, r, done);
    if CanReplace(plan, table, scope, r) {
      ReplacesInPlan(plan, table, scope, r);
      forall id | id in t
        ensures t[id].Key() == id
        ensures id in table ==> OnwardRow(table[id], t[id])
        ensures id !in table ==> NewRow(table, t[id])
      {
        if id in NextByReplacement(Shown(table, plan.value), r) {
          ReplacementWritesOnward(table, plan.value, scope, r, id);
        }
        if id in table {
          SameRowIsOnward(table[id]);
        }
      }
    } else {
      SameIsStepOk(table);
    }
  }

  lemma DistributionIsStepOk(plans: seq<Plan>, table: Table, scope: Scope, d: Distribution, at: int, done: set<Id>)
    requires Keyed(table) && NoSnapshots(plans) && NoLineage(d)
    ensures StepOk(table, Distributed(plans, table, scope, d, at, done))
  {
    hide OnwardRow, NewRow, NextByDistribution, Shown, CanAssign, Admitted, IsRetirementTime, PreviewStands, CommitPart;
    var plan := ScopePlan(plans, scope);
    var t := Distributed(plans, table, scope, d, at, done);
    if CanDistribute(plan, table, scope, d) && IsRetirementTime(Shown(table, plan.value), plan.value, scope, d, at) {
      forall id | id in t
        ensures t[id].Key() == id
        ensures id in table ==> OnwardRow(table[id], t[id])
        ensures id !in table ==> NewRow(table, t[id])
      {
        if id in NextByDistribution(Shown(table, plan.value), scope, d, at) {
          DistributionWrites(table, plan.value, scope, d, at, id);
        }
        if id in table {
          SameRowIsOnward(table[id]);
        }
      }
    } else {
      SameIsStepOk(table);
    }
  }

  lemma SameRowIsOnward(x: Record)
    ensures OnwardRow(x, x)
  {
  }

  lemma DistributionWrites(table: Table, plan: Plan, scope: Scope, d: Distribution, at: int, id: Id)
    requires Keyed(table) && plan.snapshot.None? && NoLineage(d)
    requires forall a :: a in d.desired ==> CanAssign(Shown(table, plan), table, scope, a)
    requires id in NextByDistribution(Shown(table, plan), scope, d, at)
    ensures var y := AssignmentRecord(NextByDistribution(Shown(table, plan), scope, d, at)[id]);
            && y.Key() == id
            && (id in table ==> OnwardRow(table[id], y))
            && (id !in table ==> NewRow(table, y))
  {
    hide NextByDistribution, Matches, BelongsTo;
    var shown := Shown(table, plan);
    var next := NextByDistribution(shown, scope, d, at);
    DistributionAt(shown, scope, d, at, id);
    if a :| a in d.desired && a.id == id && next[id] == Merge(shown, a) {
      assert CanAssign(shown, table, scope, a);
    }
  }

  lemma OnwardTrans(t: Table, u: Table, v: Table)
    requires Onward(t, u) && Onward(u, v)
    ensures Onward(t, v)
  {
  }

  lemma StepIsOk(plans: seq<Plan>, table: Table, e: Event)
    requires Keyed(table) && NoSnapshots(plans) && (e.Distribute? ==> NoLineage(e.distribution))
    ensures StepOk(table, Step(plans, table, e))
  {
    hide Keyed, StepOk, ReplacedPart, Distributed, NoLineage;
    match e
    case Replace(scope, r, done) => ReplacementIsStepOk(plans, table, scope, r, done);
    case Distribute(scope, d, at, done) => DistributionIsStepOk(plans, table, scope, d, at, done);
  }

  lemma ReplacedPartKeepsLineage(plans: seq<Plan>, table: Table, scope: Scope, r: Replacement, done: set<Id>)
    requires LineageOk(table) && NoSnapshots(plans) && (r.previous in done ==> r.successor.id in done)
    ensures LineageOk(ReplacedPart(plans, table, scope, r, done))
  {
    hide LineageOk, CanReplace, NextByReplacement, Shown;
    var plan := ScopePlan(plans, scope);
    if CanReplace(plan, table, scope, r) {
      assert plan.Some? by { ReplacesInPlan(plan, table, scope, r); }
      InterruptedReplacement(table, plan.value, scope, r, done);
    }
  }

  lemma ReplacesInPlan(plan: Option<Plan>, table: Table, scope: Scope, r: Replacement)
    requires CanReplace(plan, table, scope, r)
    ensures plan.Some?
  {
  }

  lemma StepKeepsLineage(plans: seq<Plan>, table: Table, e: Event)
    requires LineageOk(table) && NoSnapshots(plans) && (e.Distribute? ==> NoLineage(e.distribution)) && NotSplit(e)
    ensures LineageOk(Step(plans, table, e))
  {
    hide LineageOk, ReplacedPart, Distributed, NoLineage;
    match e
    case Replace(scope, r, done) => ReplacedPartKeepsLineage(plans, table, scope, r, done);
    case Distribute(scope, d, at, done) => DistributionKeepsLineage(plans, table, scope, d, at, done);
  }

  /** Over every run, interrupted operations included: no row is lost, no version falls, backward links stay, and superseded
      is final. */
  lemma {:induction false} RunsMoveOn(plans: seq<Plan>, table: Table, events: seq<Event>)
    requires Keyed(table) && NoSnapshots(plans) && NoLineageEvents(events)
    ensures Keyed(Exec(plans, table, events)) && Onward(table, Exec(plans, table, events))
  {
    hide Keyed, Onward, Step, NoLineage;
    if events == [] {
      assert Onward(table, table) by { SameIsOnward(table); }
    } else {
      var before := Exec(plans, table, events[..|events| - 1]);
      RunsMoveOn(plans, table, events[..|events| - 1]);
      StepIsOk(plans, before, events[|events| - 1]);
      OnwardTrans(table, before, Exec(plans, table, events));
    }
  }

  lemma SameIsOnward(table: Table)
    ensures Onward(table, table)
  {
  }

  /** Over every run in which no replacement stopped between its two writes, other interruptions included: links lead from
      superseded assignments to assignments that point back and never form a cycle, and superseded is final. */
  lemma {:induction false} LineageHoldsInEveryRun(plans: seq<Plan>, table: Table, events: seq<Event>)
    requires LineageOk(table) && NoSnapshots(plans) && NoLineageEvents(events) && NoneSplit(events)
    ensures LineageOk(Exec(plans, table, events)) && Onward(table, Exec(plans, table, events))
  {
    hide LineageOk, Onward, Step, NoLineage, NotSplit;
    assert Keyed(table) by { LineageParts(table); }
    RunsMoveOn(plans, table, events);
    if events != [] {
      LineageHoldsInEveryRun(plans, table, events[..|events| - 1]);
      StepKeepsLineage(plans, Exec(plans, table, events[..|events| - 1]), events[|events| - 1]);
    }
  }

  // ---------------------------------------------------------------------------------------------
  // A split replacement
  // ---------------------------------------------------------------------------------------------

  /** A superseded assignment whose successor link leads nowhere, or to an assignment that does not point back. */
  ghost predicate Dangling(table: Table, id: Id)
  {
    HasAssignment(table, id) && table[id].assignment.status == Superseded && !LinkOk(table, id)
  }

  lemma DanglingStep(t: Table, u: Table, id: Id)
    requires Dangling(t, id) && StepOk(t, u)
    ensures Dangling(u, id) && u[id] == t[id]
  {
    assert OnwardRow(t[id], u[id]);
    var next := t[id].assignment.successor.value;
    if next in t {
      assert OnwardRow(t[next], u[next]);
    } else if next in u {
      assert NewRow(t, u[next]);
    }
  }

  lemma {:induction false} DanglingForGood(plans: seq<Plan>, table: Table, events: seq<Event>, id: Id)
    requires Keyed(table) && NoSnapshots(plans) && NoLineageEvents(events) && Dangling(table, id)
    ensures var u := Exec(plans, table, events); Dangling(u, id) && u[id] == table[id]
  {
    hide Keyed, Dangling, Step, NoLineage, StepOk;
    if events != [] {
      var init := events[..|events| - 1];
      DanglingForGood(plans, table, init, id);
      RunsMoveOn(plans, table, init);
      StepIsOk(plans, Exec(plans, table, init), events[|events| - 1]);
      DanglingStep(Exec(plans, table, init), Exec(plans, table, events), id);
    }
  }

  /** No replacement of the assignment is accepted. */
  ghost predicate RefusesReplacement(plans: seq<Plan>, table: Table, id: Id)
  {
    forall scope: Scope, r: Replacement :: r.previous == id ==> !CanReplace(ScopePlan(plans, scope), table, scope, r)
  }

  lemma SupersededIsRefused(plans: seq<Plan>, table: Table, id: Id)
    requires Keyed(table) && NoSnapshots(plans) && HasAssignment(table, id) && table[id].assignment.status == Superseded
    ensures RefusesReplacement(plans, table, id)
  {
    hide Admitted, Matches, Blank;
  }

  lemma SplitLeavesDangling(table: Table, plan: Plan, scope: Scope, r: Replacement, done: set<Id>)
    requires Keyed(table) && plan.snapshot.None? && CanReplace(Some(plan), table, scope, r)
    requires r.previous in done && r.successor.id !in done
    ensures var t := CommitPart(table, NextByReplacement(Shown(table, plan), r), done);
            Keyed(t) && Dangling(t, r.previous)
  {
    hide Admitted, Matches, Blank, BelongsTo, CommitPart;
    var t := CommitPart(table, NextByReplacement(Shown(table, plan), r), done);
    assert t[r.previous].assignment.successor == Some(r.successor.id) && r.successor.id !in t;
  }

  /** Stopped between its two writes, a replacement is never made up for. After any later run, itself interrupted or not,
      the assignment is as the replacement left it, its link is still broken, and every replacement of it is refused. */
  lemma InterruptedReplacementIsStuck(plans: seq<Plan>, table: Table, plan: Plan, scope: Scope, r: Replacement,
                                      done: set<Id>, events: seq<Event>)
    requires Keyed(table) && plan.snapshot.None? && CanReplace(Some(plan), table, scope, r)
    requires NoSnapshots(plans) && NoLineageEvents(events)
    requires r.previous in done && r.successor.id !in done
    ensures var t := CommitPart(table, NextByReplacement(Shown(table, plan), r), done);
            var u := Exec(plans, t, events);
            && r.previous in t && r.previous in u && u[r.previous] == t[r.previous]
            && Dangling(u, r.previous) && !LineageOk(u)
            && (forall again: Scope, retry: Replacement :: retry.previous == r.previous ==>
                  !CanReplace(ScopePlan(plans, again), u, again, retry) && Replaced(plans, u, again, retry) == u)
  {
    hide Exec, LineageOk, CommitPart, NoLineage, CanReplace, NextByReplacement, Keyed, LinkOk;
    SplitLeavesDangling(table, plan, scope, r, done);
    var t := CommitPart(table, NextByReplacement(Shown(table, plan), r), done);
    var u := Exec(plans, t, events);
    DanglingForGood(plans, t, events, r.previous);
    RunsMoveOn(plans, t, events);
    BrokenLink(u, r.previous);
    SupersededIsRefused(plans, u, r.previous);
  }
}
