/** When a distribution is refused and what an accepted one leaves, told on the rows of the table, for plans without a
    snapshot; and that a preview which something overtook never commits. */
module DistributionGuards {
  import opened Basics
  import opened AssignmentModel
  import opened AssignmentGenerations
  import opened AssignmentLineage
  import opened AssignmentGuards

  datatype Objection =
    | NoReason
    | NoPlan
    | NotAdmitted
    | RepeatedPreview
    | PreviewOutdated
    | PreviewIncomplete
    | RepeatedAssignment
    | UnfitAssignment
    | IdTaken
    | AssignmentChanged

  ghost predicate Working(a: Assignment)
  {
    a.status == Assigned || a.status == InProgress || a.status == Submitted
  }

  /** The row of an assignment in scope that someone still works on. */
  ghost predicate WorkingRow(table: Table, scope: Scope, id: Id, a: Assignment)
  {
    Row(table, id, a) && InScope(a, scope) && Working(a)
  }

  /** A desired assignment, or a previewed row in scope, is for this submission. */
  ghost predicate Over(table: Table, scope: Scope, d: Distribution, submission: string)
  {
    || (exists a :: a in d.desired && a.submission == submission)
    || (exists e, a :: e in d.expected && Row(table, e.id, a) && InScope(a, scope) && a.submission == submission)
  }

  /** The previewed versions are those of rows in scope that are worked on. */
  ghost predicate Current(table: Table, scope: Scope, e: Expected)
  {
    exists a :: WorkingRow(table, scope, e.id, a) && a.version == e.version
  }

  /** Every row worked on, over a submission the distribution is for, is previewed at its version. */
  ghost predicate Complete(table: Table, scope: Scope, d: Distribution)
  {
    forall id, a :: WorkingRow(table, scope, id, a) && Over(table, scope, d, a.submission) ==>
      Expected(id, a.version) in d.expected
  }

  /** The id has no row, or the row of an assignment in scope. */
  ghost predicate Free(table: Table, scope: Scope, id: Id)
  {
    id in table ==> exists b :: Row(table, id, b) && InScope(b, scope)
  }

  /** A row under the id is worked on, by the same reviewer, at the same version. */
  ghost predicate Unchanged(table: Table, a: Assignment)
  {
    forall b :: Row(table, a.id, b) ==> Working(b) && b.reviewer == a.reviewer && b.version == a.version
  }

  /** Each ground for refusing a distribution. */
  ghost predicate Objects(f: Objection, plans: seq<Plan>, table: Table, scope: Scope, d: Distribution)
  {
    match f
    case NoReason => Blank(d.reason)
    case NoPlan => forall p :: !IsPlanOf(plans, scope, p)
    case NotAdmitted =>
      !d.closedCleanup &&
      exists p :: IsPlanOf(plans, scope, p) && !(d.authorizedAt.Some? && StillOpen(p, scope.round, d.authorizedAt.value))
    case RepeatedPreview => exists i, j :: 0 <= i < j < |d.expected| && d.expected[i].id == d.expected[j].id
    case PreviewOutdated => exists e :: e in d.expected && !Current(table, scope, e)
    case PreviewIncomplete => !Complete(table, scope, d)
    case RepeatedAssignment => exists i, j :: 0 <= i < j < |d.desired| && d.desired[i].id == d.desired[j].id
    case UnfitAssignment => exists a :: a in d.desired && !(Working(a) && InScope(a, scope))
    case IdTaken => exists a :: a in d.desired && !Free(table, scope, a.id)
    case AssignmentChanged => exists a :: a in d.desired && !Unchanged(table, a)
  }

  /** What the plan of the scope shows are its rows. */
  ghost predicate ShowsRows(table: Table, scope: Scope, shown: map<Id, Assignment>)
  {
    && (forall id :: id in shown ==> Row(table, id, shown[id]))
    && (forall id, a :: Row(table, id, a) && InScope(a, scope) ==> id in shown)
  }

  lemma PlanShowsRows(plans: seq<Plan>, table: Table, scope: Scope, plan: Plan)
    requires NoSnapshots(plans) && IsPlanOf(plans, scope, plan)
    ensures plan.snapshot.None? && ShowsRows(table, scope, Shown(table, plan))
  {
    assert plan in plans;
  }

  lemma TargetIsOver(table: Table, scope: Scope, shown: map<Id, Assignment>, d: Distribution, submission: string)
    requires ShowsRows(table, scope, shown)
    ensures submission in TargetSubmissions(shown, scope, d) <==> Over(table, scope, d, submission)
  {
    hide Submissions;
    DesiredSubmissions(d.desired, submission);
    forall a ensures Matches(a, scope) <==> InScope(a, scope) {
      MatchesIsInScope(a, scope);
    }
    hide Matches, InScope;
    if e, a :| e in d.expected && Row(table, e.id, a) && InScope(a, scope) && a.submission == submission {
      assert e.id in shown && shown[e.id] == a;
    }
  }

  lemma DesiredSubmissions(desired: seq<Assignment>, submission: string)
    ensures submission in Submissions(desired) <==> exists a :: a in desired && a.submission == submission
  {
  }

  lemma ActiveIsWorking(table: Table, scope: Scope, shown: map<Id, Assignment>, d: Distribution, id: Id)
    requires ShowsRows(table, scope, shown)
    ensures id in ActiveTarget(shown, scope, d) <==>
            id in shown && WorkingRow(table, scope, id, shown[id]) && Over(table, scope, d, shown[id].submission)
  {
    hide TargetSubmissions, Over;
    if id in shown {
      MatchesIsInScope(shown[id], scope);
      TargetIsOver(table, scope, shown, d, shown[id].submission);
    }
  }

  /** The preview stands when it lists each row worked on in the target once, at its version, and nothing else. */
  lemma PreviewStandsExactly(table: Table, scope: Scope, shown: map<Id, Assignment>, d: Distribution)
    requires ShowsRows(table, scope, shown)
    ensures PreviewStands(shown, scope, d) <==>
            && DistinctExpected(d.expected)
            && (forall e :: e in d.expected ==> Current(table, scope, e))
            && Complete(table, scope, d)
  {
    hide ActiveTarget, DistinctExpected, Working;
    forall id ensures id in ActiveTarget(shown, scope, d) <==>
                      id in shown && WorkingRow(table, scope, id, shown[id]) && Over(table, scope, d, shown[id].submission)
    {
      ActiveIsWorking(table, scope, shown, d, id);
    }
    forall e | e in d.expected
      ensures e.id in ActiveTarget(shown, scope, d) && shown[e.id].version == e.version <==> Current(table, scope, e)
    {
      if e.id in shown {
        assert InScope(shown[e.id], scope) ==> Over(table, scope, d, shown[e.id].submission);
      }
    }
    hide Over;
    if Complete(table, scope, d) {
      forall id | id in ActiveTarget(shown, scope, d) ensures Expected(id, shown[id].version) in d.expected {
      }
    }
    if forall id :: id in ActiveTarget(shown, scope, d) ==> Expected(id, shown[id].version) in d.expected {
      forall id, a | WorkingRow(table, scope, id, a) && Over(table, scope, d, a.submission)
        ensures Expected(id, a.version) in d.expected
      {
        assert id in shown && shown[id] == a;
      }
    }
  }

  lemma CanAssignExactly(table: Table, scope: Scope, plan: Plan, a: Assignment)
    requires plan.snapshot.None? && plan.tenant == scope.tenant && plan.event == scope.event && plan.id == scope.plan
    ensures CanAssign(Shown(table, plan), table, scope, a) <==>
            Working(a) && InScope(a, scope) && Free(table, scope, a.id) && Unchanged(table, a)
  {
    ShownIsRow(table, plan, scope, a.id);
    if a.id in Shown(table, plan) {
      assert Row(table, a.id, Shown(table, plan)[a.id]);
    }
  }

  /** A distribution is refused exactly on one of these grounds. */
  lemma DistributionRefusedExactly(plans: seq<Plan>, table: Table, scope: Scope, d: Distribution)
    requires NoSnapshots(plans)
    ensures !CanDistribute(ScopePlan(plans, scope), table, scope, d) <==> exists f :: Objects(f, plans, table, scope, d)
  {
    hide IsPlanOf, Shown, ShowsRows, Admitted, PreviewStands, CanAssign, Complete, Current, Objects, ScopePlan, CanDistribute;
    var found := ScopePlan(plans, scope);
    if found.Some? {
      var plan := found.value;
      ScopePlanIsPlanOf(plans, scope, plan);
      PlanShowsRows(plans, table, scope, plan);
      PreviewStandsExactly(table, scope, Shown(table, plan), d);
      AdmittedExactly(plan, scope.round, d.authorizedAt, false);
      assert plan.tenant == scope.tenant && plan.event == scope.event && plan.id == scope.plan by { PlanFields(plans, scope, plan); }
      forall a ensures CanAssign(Shown(table, plan), table, scope, a) <==>
                       Working(a) && InScope(a, scope) && Free(table, scope, a.id) && Unchanged(table, a)
      {
        CanAssignExactly(table, scope, plan, a);
      }
      ObjectionsOfPlan(plans, table, scope, plan, d);
    } else {
      forall p ensures !IsPlanOf(plans, scope, p) {
        ScopePlanIsPlanOf(plans, scope, p);
      }
      NoPlanObjects(plans, table, scope, d);
    }
  }

  lemma PlanFields(plans: seq<Plan>, scope: Scope, plan: Plan)
    requires IsPlanOf(plans, scope, plan)
    ensures plan.tenant == scope.tenant && plan.event == scope.event && plan.id == scope.plan
  {
  }

  lemma NoPlanObjects(plans: seq<Plan>, table: Table, scope: Scope, d: Distribution)
    requires forall p :: !IsPlanOf(plans, scope, p)
    ensures Objects(Objection.NoPlan, plans, table, scope, d) && !CanDistribute(None, table, scope, d)
  {
  }

  /** `CanDistribute` of a plan, put as conditions on the rows. */
  ghost predicate Clear(plans: seq<Plan>, table: Table, scope: Scope, plan: Plan, d: Distribution)
  {
    && !Blank(d.reason)
    && (d.closedCleanup || (d.authorizedAt.Some? && StillOpen(plan, scope.round, d.authorizedAt.value)))
    && DistinctExpected(d.expected)
    && (forall e :: e in d.expected ==> Current(table, scope, e))
    && Complete(table, scope, d)
    && DistinctIds(d.desired)
    && (forall a :: a in d.desired ==> Working(a) && InScope(a, scope) && Free(table, scope, a.id) && Unchanged(table, a))
  }

  lemma ObjectionsOfPlan(plans: seq<Plan>, table: Table, scope: Scope, plan: Plan, d: Distribution)
    requires IsPlanOf(plans, scope, plan)
    requires PreviewStands(Shown(table, plan), scope, d) <==>
             && DistinctExpected(d.expected)
             && (forall e :: e in d.expected ==> Current(table, scope, e))
             && Complete(table, scope, d)
    requires Admitted(plan, scope.round, d.authorizedAt, false) <==>
             d.authorizedAt.Some? && StillOpen(plan, scope.round, d.authorizedAt.value)
    requires forall a :: CanAssign(Shown(table, plan), table, scope, a) <==>
                         Working(a) && InScope(a, scope) && Free(table, scope, a.id) && Unchanged(table, a)
    ensures !CanDistribute(Some(plan), table, scope, d) <==> exists f :: Objects(f, plans, table, scope, d)
  {
    hide IsPlanOf, Shown, Admitted, PreviewStands, CanAssign, Complete, Current, Blank, StillOpen, Working, InScope, Free,
      Unchanged, Objects, DistinctExpected, DistinctIds;
    assert CanDistribute(Some(plan), table, scope, d) <==> Clear(plans, table, scope, plan, d);
    forall p | IsPlanOf(plans, scope, p) ensures p == plan {
      OnePlan(plans, scope, p, plan);
    }
    if Clear(plans, table, scope, plan, d) {
      forall f ensures !Objects(f, plans, table, scope, d) {
        ClearHasNone(plans, table, scope, plan, d, f);
      }
    } else if forall f :: !Objects(f, plans, table, scope, d) {
      NoneIsClear(plans, table, scope, plan, d);
    }
  }

  lemma ClearHasNone(plans: seq<Plan>, table: Table, scope: Scope, plan: Plan, d: Distribution, f: Objection)
    requires IsPlanOf(plans, scope, plan) && Clear(plans, table, scope, plan, d)
    requires forall p :: IsPlanOf(plans, scope, p) ==> p == plan
    ensures !Objects(f, plans, table, scope, d)
  {
    hide IsPlanOf, Complete, Current, Blank, StillOpen, Working, InScope, Free, Unchanged;
  }

  lemma NoneIsClear(plans: seq<Plan>, table: Table, scope: Scope, plan: Plan, d: Distribution)
    requires IsPlanOf(plans, scope, plan) && forall f :: !Objects(f, plans, table, scope, d)
    ensures Clear(plans, table, scope, plan, d)
  {
    hide IsPlanOf, Complete, Current, Blank, StillOpen, Working, InScope, Free, Unchanged;
    assert !Objects(Objection.NoReason, plans, table, scope, d) && !Objects(Objection.NotAdmitted, plans, table, scope, d);
    assert !Objects(RepeatedPreview, plans, table, scope, d) && !Objects(PreviewOutdated, plans, table, scope, d);
    assert !Objects(PreviewIncomplete, plans, table, scope, d) && !Objects(RepeatedAssignment, plans, table, scope, d);
    assert !Objects(UnfitAssignment, plans, table, scope, d) && !Objects(IdTaken, plans, table, scope, d);
    assert !Objects(AssignmentChanged, plans, table, scope, d);
  }

  /** A refused distribution writes nothing, whatever it would have written. */
  lemma RefusedDistributionWritesNothing(plans: seq<Plan>, table: Table, scope: Scope, d: Distribution, at: int,
                                         f: Objection, done: set<Id>)
    requires NoSnapshots(plans) && Objects(f, plans, table, scope, d)
    ensures Distributed(plans, table, scope, d, at, done) == table
  {
    hide Objects, CanDistribute, ScopePlan, IsRetirementTime, NextByDistribution;
    DistributionRefusedExactly(plans, table, scope, d);
  }

  /** Once anything has raised the version of a previewed assignment, the distribution is refused, then and after any
      later run, and writes nothing. */
  lemma StaleDistributionNeverCommits(plans: seq<Plan>, table: Table, events: seq<Event>, more: seq<Event>,
                                      scope: Scope, d: Distribution, e: Expected, at: int, done: set<Id>)
    requires Keyed(table) && NoSnapshots(plans) && NoLineageEvents(events) && NoLineageEvents(more)
    requires e in d.expected && HasAssignment(table, e.id) && e.version <= table[e.id].assignment.version
    requires var t := Exec(plans, table, events);
             HasAssignment(t, e.id) && t[e.id].assignment.version != e.version
    ensures var u := Exec(plans, Exec(plans, table, events), more);
            Distributed(plans, u, scope, d, at, done) == u
  {
    hide Exec, NoLineageEvents, Keyed, Distributed, InScope, Working;
    var t := Exec(plans, table, events);
    var u := Exec(plans, t, more);
    RunsMoveOn(plans, table, events);
    RunsMoveOn(plans, t, more);
    assert OnwardRow(table[e.id], t[e.id]);
    assert OnwardRow(t[e.id], u[e.id]);
    assert !Current(u, scope, e);
    assert Objects(PreviewOutdated, plans, u, scope, d);
    RefusedDistributionWritesNothing(plans, u, scope, d, at, PreviewOutdated, done);
  }

  /** What a distribution, accepted with retirement time `at`, writes under an id. */
  ghost predicate Leaves(table: Table, scope: Scope, d: Distribution, at: int, id: Id, x: Option<Record>)
  {
    && (forall a :: a in d.desired && a.id == id && id !in table ==> x == Some(AssignmentRecord(a)))
    && (forall a, b :: a in d.desired && a.id == id && Row(table, id, b) ==>
          x == Some(AssignmentRecord(Assignment(
                 id, a.tenant, a.event, a.plan, a.round, a.submission, b.reviewer, a.status, b.predecessor, b.successor,
                 b.supersededReason, b.lineage, b.version, a.updatedAt))))
    && (forall b :: WorkingRow(table, scope, id, b) && Over(table, scope, d, b.submission) && !Desired(d, id) ==>
          x == Some(AssignmentRecord(Assignment(
                 id, b.tenant, b.event, b.plan, b.round, b.submission, b.reviewer, Superseded, b.predecessor, None,
                 Some(d.reason), Some(Lineage(b.predecessor, None, d.reason, at)), b.version + 1, at))))
    && (!Desired(d, id) && !(exists b :: WorkingRow(table, scope, id, b) && Over(table, scope, d, b.submission)) ==>
          x == At(table, id))
  }

  ghost predicate Desired(d: Distribution, id: Id)
  {
    exists a :: a in d.desired && a.id == id
  }

  ghost function At(table: Table, id: Id): Option<Record>
  {
    if id in table then Some(table[id]) else None
  }

  /** The time of retirement: of the first desired assignment, else of a row that is retired, else of the plan. */
  ghost predicate RetiredAt(table: Table, scope: Scope, plan: Plan, d: Distribution, at: int)
  {
    if d.desired != [] then at == d.desired[0].updatedAt
    else
      || (exists id, a :: WorkingRow(table, scope, id, a) && Over(table, scope, d, a.submission) && at == a.updatedAt)
      || (at == plan.updatedAt && forall id, a :: WorkingRow(table, scope, id, a) ==> !Over(table, scope, d, a.submission))
  }

  lemma RetirementTimeIs(table: Table, scope: Scope, plan: Plan, d: Distribution, at: int)
    requires ShowsRows(table, scope, Shown(table, plan))
    ensures IsRetirementTime(Shown(table, plan), plan, scope, d, at) <==> RetiredAt(table, scope, plan, d, at)
  {
    hide ActiveTarget, Shown, Over, Working, InScope;
    var shown := Shown(table, plan);
    forall id ensures id in ActiveTarget(shown, scope, d) <==>
                      id in shown && WorkingRow(table, scope, id, shown[id]) && Over(table, scope, d, shown[id].submission)
    {
      ActiveIsWorking(table, scope, shown, d, id);
    }
    if id, a :| WorkingRow(table, scope, id, a) && Over(table, scope, d, a.submission) {
      assert id in shown && shown[id] == a;
    }
    forall id, a | WorkingRow(table, scope, id, a) && Over(table, scope, d, a.submission)
      ensures id in ActiveTarget(shown, scope, d) && shown[id] == a
    {
    }
  }

  /** An accepted distribution that leaves lineage fields to the store, wherever it stops: each id it wrote holds the
      desired assignment with the links its row had, or a retired row one version on, or what it held before; each id it
      did not write holds what it held before. */
  lemma DistributionLeaves(plans: seq<Plan>, table: Table, scope: Scope, plan: Plan, d: Distribution, at: int,
                           done: set<Id>, id: Id)
    requires Keyed(table) && NoSnapshots(plans) && NoLineage(d) && IsPlanOf(plans, scope, plan)
    requires (forall f :: !Objects(f, plans, table, scope, d)) && RetiredAt(table, scope, plan, d, at)
    ensures var t := Distributed(plans, table, scope, d, at, done);
            if id in done then Leaves(table, scope, d, at, id, At(t, id)) else At(t, id) == At(table, id)
  {
    hide Objects, CanDistribute, ScopePlan, IsRetirementTime, NextByDistribution, Shown, ShowsRows, RetiredAt, Leaves, IsPlanOf;
    DistributionRefusedExactly(plans, table, scope, d);
    ScopePlanIsPlanOf(plans, scope, plan);
    PlanShowsRows(plans, table, scope, plan);
    RetirementTimeIs(table, scope, plan, d, at);
    if id in done {
      LeavesAt(plans, table, scope, plan, d, at, done, id);
    }
  }

  lemma LeavesAt(plans: seq<Plan>, table: Table, scope: Scope, plan: Plan, d: Distribution, at: int, done: set<Id>, id: Id)
    requires Keyed(table) && NoLineage(d) && ShowsRows(table, scope, Shown(table, plan)) && id in done
    requires CanDistribute(Some(plan), table, scope, d)
    ensures Leaves(table, scope, d, at, id, At(CommitPart(table, NextByDistribution(Shown(table, plan), scope, d, at), done), id))
  {
    hide NextByDistribution, Shown, ActiveTarget, Over, Working, Admitted, PreviewStands;
    var shown := Shown(table, plan);
    var next := NextByDistribution(shown, scope, d, at);
    var x := At(CommitPart(table, next, done), id);
    ActiveIsWorking(table, scope, shown, d, id);
    if Desired(d, id) {
      var a :| a in d.desired && a.id == id;
      DesiredAt(shown, scope, d, at, a);
      DesiredLeaves(table, scope, plan, d, at, a, x);
    } else {
      DistributionAt(shown, scope, d, at, id);
      assert !exists a :: a in d.desired && a.id == id;
      UndesiredLeaves(table, scope, shown, d, at, id, x);
    }
  }

  lemma UndesiredLeaves(table: Table, scope: Scope, shown: map<Id, Assignment>, d: Distribution, at: int, id: Id,
                        x: Option<Record>)
    requires ShowsRows(table, scope, shown) && !Desired(d, id)
    requires id in shown && WorkingRow(table, scope, id, shown[id]) && Over(table, scope, d, shown[id].submission) ==>
               x == Some(AssignmentRecord(Retire(shown[id], None, d.reason, at))) && shown[id].id == id
    requires !(id in shown && WorkingRow(table, scope, id, shown[id]) && Over(table, scope, d, shown[id].submission)) ==>
               x == At(table, id)
    ensures Leaves(table, scope, d, at, id, x)
  {
    hide Over, Working, InScope;
    forall b | WorkingRow(table, scope, id, b) ensures id in shown && shown[id] == b {
    }
  }

  lemma DesiredLeaves(table: Table, scope: Scope, plan: Plan, d: Distribution, at: int, a: Assignment, x: Option<Record>)
    requires NoLineage(d) && ShowsRows(table, scope, Shown(table, plan)) && a in d.desired && DistinctIds(d.desired)
    requires CanAssign(Shown(table, plan), table, scope, a) && x == Some(AssignmentRecord(Merge(Shown(table, plan), a)))
    ensures Leaves(table, scope, d, at, a.id, x)
  {
    hide Shown, Over, Working;
    forall b | b in d.desired && b.id == a.id ensures b == a {
      SameIdSameAssignment(d.desired, a, b);
    }
  }
}
