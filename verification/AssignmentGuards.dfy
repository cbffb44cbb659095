/** When a replacement or a distribution is refused, told on the rows of the table, and what one that read an older
    version can still do: nothing. Plans have no snapshot here, so the rows are what a plan shows. */
module AssignmentGuards {
  import opened Basics
  import opened AssignmentModel
  import opened AssignmentOverlay
  import opened AssignmentGenerations
  import opened AssignmentLineage

  /** The row of an assignment. */
  ghost predicate Row(table: Table, id: Id, a: Assignment)
  {
    id in table && table[id] == AssignmentRecord(a)
  }

  ghost predicate InScope(a: Assignment, scope: Scope)
  {
    && a.tenant == scope.tenant && a.event == scope.event && a.plan == scope.plan && a.round == scope.round
    && (scope.submission == None || scope.submission == Some(a.submission))
  }

  /** The plan at `i` is the only one of its id. */
  ghost predicate OnlyAt(plans: seq<Plan>, i: int, plan: Plan)
  {
    0 <= i < |plans| && plans[i] == plan && forall j :: 0 <= j < |plans| && j != i ==> plans[j].id != plan.id
  }

  /** The plan of a scope: the only one of its id, under the scope's tenant and event. */
  ghost predicate IsPlanOf(plans: seq<Plan>, scope: Scope, plan: Plan)
  {
    && plan.tenant == scope.tenant && plan.event == scope.event && plan.id == scope.plan
    && exists i :: OnlyAt(plans, i, plan)
  }

  lemma {:induction false} FoundIsOnly(plans: seq<Plan>, id: string) returns (i: int)
    ensures PlanById(plans, id).Found? ==> OnlyAt(plans, i, PlanById(plans, id).value)
  {
    i := 0;
    if plans != [] && PlanById(plans, id).Found? {
      var rest := plans[1..];
      assert forall j :: 0 < j < |plans| ==> plans[j] == rest[j - 1];
      if plans[0].id != id {
        var k := FoundIsOnly(rest, id);
        i := k + 1;
      }
    }
  }

  lemma {:induction false} OnlyIsFound(plans: seq<Plan>, i: int, plan: Plan)
    requires OnlyAt(plans, i, plan)
    ensures PlanById(plans, plan.id) == Found(plan)
  {
    var rest := plans[1..];
    assert forall j :: 0 <= j < |rest| ==> rest[j] == plans[j + 1];
    if i > 0 {
      OnlyIsFound(rest, i - 1, plan);
    } else {
      AbsentIsMissing(rest, plan.id);
    }
  }

  lemma {:induction false} AbsentIsMissing(plans: seq<Plan>, id: string)
    requires forall j :: 0 <= j < |plans| ==> plans[j].id != id
    ensures PlanById(plans, id).Missing?
  {
    if plans != [] {
      AbsentIsMissing(plans[1..], id);
    }
  }

  lemma ScopePlanIsPlanOf(plans: seq<Plan>, scope: Scope, plan: Plan)
    ensures ScopePlan(plans, scope) == Some(plan) <==> IsPlanOf(plans, scope, plan)
  {
    var i := FoundIsOnly(plans, scope.plan);
    if IsPlanOf(plans, scope, plan) {
      var k :| OnlyAt(plans, k, plan);
      OnlyIsFound(plans, k, plan);
    }
  }

  /** The round of an id is the first one that has it. */
  ghost predicate RoundAt(plan: Plan, id: string, i: int)
  {
    0 <= i < |plan.rounds| && plan.rounds[i].id == id && forall j :: 0 <= j < i ==> plan.rounds[j].id != id
  }

  /** At `time` the plan is open and not yet past its end, and so is the round. */
  ghost predicate StillOpen(plan: Plan, roundId: string, time: int)
  {
    && plan.open
    && (plan.closesAt.Some? ==> time < plan.closesAt.value)
    && exists i :: RoundAt(plan, roundId, i) && (plan.rounds[i].closesAt.Some? ==> time < plan.rounds[i].closesAt.value)
  }

  ghost predicate HasBegun(plan: Plan, roundId: string, time: int)
  {
    exists i :: RoundAt(plan, roundId, i) && (plan.rounds[i].opensAt.Some? ==> plan.rounds[i].opensAt.value <= time)
  }

  lemma {:induction false} FindRoundIsFirst(rounds: seq<Round>, id: string) returns (i: nat)
    ensures FindRound(rounds, id).Some? ==>
      i < |rounds| && rounds[i].id == id && FindRound(rounds, id) == Some(rounds[i]) && forall j :: 0 <= j < i ==> rounds[j].id != id
    ensures FindRound(rounds, id).None? ==> forall j :: 0 <= j < |rounds| ==> rounds[j].id != id
  {
    i := 0;
    if rounds != [] && rounds[0].id != id {
      var k := FindRoundIsFirst(rounds[1..], id);
      i := k + 1;
      assert forall j :: 1 <= j < |rounds| ==> rounds[j] == rounds[1..][j - 1];
    }
  }

  /** Writes are admitted exactly from the opening of the round, where that is asked for, until the plan or the round
      closes. */
  lemma AdmittedExactly(plan: Plan, roundId: string, authorizedAt: Option<int>, requireRoundOpen: bool)
    ensures Admitted(plan, roundId, authorizedAt, requireRoundOpen) <==>
            && authorizedAt.Some?
            && StillOpen(plan, roundId, authorizedAt.value)
            && (requireRoundOpen ==> HasBegun(plan, roundId, authorizedAt.value))
  {
    var i := FindRoundIsFirst(plan.rounds, roundId);
    if FindRound(plan.rounds, roundId).Some? {
      assert RoundAt(plan, roundId, i);
      forall j | RoundAt(plan, roundId, j) ensures j == i {
      }
    }
  }

  // ---------------------------------------------------------------------------------------------
  // Replacement
  // ---------------------------------------------------------------------------------------------

  datatype Refusal =
    | NoPlan
    | NotAdmitted
    | NoSuchAssignment
    | OutOfScope
    | AlreadySuperseded
    | StaleVersion
    | UnfitSuccessor
    | NoReason
    | SuccessorTaken

  /** Each ground for refusing a replacement. */
  ghost predicate Ground(f: Refusal, plans: seq<Plan>, table: Table, scope: Scope, r: Replacement)
  {
    match f
    case NoPlan => forall p :: !IsPlanOf(plans, scope, p)
    case NotAdmitted =>
      exists p :: IsPlanOf(plans, scope, p) &&
        !(r.authorizedAt.Some? && StillOpen(p, scope.round, r.authorizedAt.value) && HasBegun(p, scope.round, r.authorizedAt.value))
    case NoSuchAssignment => forall a :: !Row(table, r.previous, a)
    case OutOfScope => exists a :: Row(table, r.previous, a) && !InScope(a, scope)
    case AlreadySuperseded => exists a :: Row(table, r.previous, a) && a.status == Superseded
    case StaleVersion => exists a :: Row(table, r.previous, a) && a.version != r.expectedVersion
    case UnfitSuccessor =>
      || r.successor.id == r.previous
      || r.successor.status == Abstained || r.successor.status == Superseded
      || r.successor.reviewer != r.reviewer
      || !InScope(r.successor, scope)
    case NoReason => Blank(r.reason)
    case SuccessorTaken => r.successor.id in table
  }

  lemma MatchesIsInScope(a: Assignment, scope: Scope)
    ensures Matches(a, scope) <==> InScope(a, scope)
  {
  }

  lemma ShownIsRow(table: Table, plan: Plan, scope: Scope, id: Id)
    requires plan.snapshot.None? && plan.tenant == scope.tenant && plan.event == scope.event && plan.id == scope.plan
    ensures id in Shown(table, plan) && Matches(Shown(table, plan)[id], scope) <==>
            exists a :: Row(table, id, a) && InScope(a, scope)
    ensures id in Shown(table, plan) ==> Row(table, id, Shown(table, plan)[id])
  {
    if id in table && table[id].AssignmentRecord? {
      assert Row(table, id, table[id].assignment);
    }
  }

  /** A replacement is refused exactly on one of these grounds. */
  lemma RefusedExactly(plans: seq<Plan>, table: Table, scope: Scope, r: Replacement)
    requires NoSnapshots(plans)
    ensures !CanReplace(ScopePlan(plans, scope), table, scope, r) <==> exists f :: Ground(f, plans, table, scope, r)
  {
    hide IsPlanOf, Shown, Admitted, Blank, StillOpen, HasBegun, Matches, InScope, ScopePlan, Row, Ground;
    var found := ScopePlan(plans, scope);
    MatchesIsInScope(r.successor, scope);
    if found.Some? {
      var plan := found.value;
      ScopePlanIsPlanOf(plans, scope, plan);
      ShownOfPlan(plans, table, scope, plan, r.previous);
      AdmittedExactly(plan, scope.round, r.authorizedAt, true);
      GroundsOfPlan(plans, table, scope, plan, r);
    } else {
      forall p ensures !IsPlanOf(plans, scope, p) {
        ScopePlanIsPlanOf(plans, scope, p);
      }
      assert Ground(NoPlan, plans, table, scope, r) by { NoPlanIsGround(plans, table, scope, r); }
    }
  }

  lemma NoPlanIsGround(plans: seq<Plan>, table: Table, scope: Scope, r: Replacement)
    requires forall p :: !IsPlanOf(plans, scope, p)
    ensures Ground(NoPlan, plans, table, scope, r)
  {
  }

  lemma ShownOfPlan(plans: seq<Plan>, table: Table, scope: Scope, plan: Plan, id: Id)
    requires NoSnapshots(plans) && IsPlanOf(plans, scope, plan)
    ensures plan.snapshot.None?
    ensures id in Shown(table, plan) && Matches(Shown(table, plan)[id], scope) <==>
            exists a :: Row(table, id, a) && InScope(a, scope)
    ensures id in Shown(table, plan) ==> Row(table, id, Shown(table, plan)[id])
  {
    assert plan in plans;
    ShownIsRow(table, plan, scope, id);
  }

  lemma OnePlan(plans: seq<Plan>, scope: Scope, p: Plan, q: Plan)
    requires IsPlanOf(plans, scope, p) && IsPlanOf(plans, scope, q)
    ensures p == q
  {
  }

  lemma GroundsOfPlan(plans: seq<Plan>, table: Table, scope: Scope, plan: Plan, r: Replacement)
    requires IsPlanOf(plans, scope, plan)
    requires var shown := Shown(table, plan);
             && (r.previous in shown && Matches(shown[r.previous], scope) <==>
                   exists a :: Row(table, r.previous, a) && InScope(a, scope))
             && (r.previous in shown ==> Row(table, r.previous, shown[r.previous]))
    requires Matches(r.successor, scope) <==> InScope(r.successor, scope)
    requires Admitted(plan, scope.round, r.authorizedAt, true) <==>
             && r.authorizedAt.Some? && StillOpen(plan, scope.round, r.authorizedAt.value)
             && HasBegun(plan, scope.round, r.authorizedAt.value)
    ensures !CanReplace(Some(plan), table, scope, r) <==> exists f :: Ground(f, plans, table, scope, r)
  {
    hide IsPlanOf, Shown, Admitted, Blank, StillOpen, HasBegun, Matches, InScope;
    forall p | IsPlanOf(plans, scope, p) ensures p == plan {
      OnePlan(plans, scope, p, plan);
    }
    if CanReplace(Some(plan), table, scope, r) {
      forall f ensures !Ground(f, plans, table, scope, r) {
      }
    } else {
      if forall f :: !Ground(f, plans, table, scope, r) {
        NoGroundLeft(plans, table, scope, plan, r);
      }
    }
  }

  lemma NoGroundLeft(plans: seq<Plan>, table: Table, scope: Scope, plan: Plan, r: Replacement)
    requires IsPlanOf(plans, scope, plan) && forall f :: !Ground(f, plans, table, scope, r)
    requires var shown := Shown(table, plan);
             && (r.previous in shown && Matches(shown[r.previous], scope) <==>
                   exists a :: Row(table, r.previous, a) && InScope(a, scope))
             && (r.previous in shown ==> Row(table, r.previous, shown[r.previous]))
    requires Matches(r.successor, scope) <==> InScope(r.successor, scope)
    requires Admitted(plan, scope.round, r.authorizedAt, true) <==>
             && r.authorizedAt.Some? && StillOpen(plan, scope.round, r.authorizedAt.value)
             && HasBegun(plan, scope.round, r.authorizedAt.value)
    ensures CanReplace(Some(plan), table, scope, r)
  {
    hide IsPlanOf, Shown, Admitted, Blank, StillOpen, HasBegun, Matches, InScope;
    assert !Ground(NotAdmitted, plans, table, scope, r) && !Ground(NoSuchAssignment, plans, table, scope, r);
    assert !Ground(OutOfScope, plans, table, scope, r) && !Ground(AlreadySuperseded, plans, table, scope, r);
    assert !Ground(StaleVersion, plans, table, scope, r) && !Ground(UnfitSuccessor, plans, table, scope, r);
    assert !Ground(NoReason, plans, table, scope, r) && !Ground(SuccessorTaken, plans, table, scope, r);
  }

  /** A refused replacement writes nothing, whatever it would have written. */
  lemma RefusedWritesNothing(plans: seq<Plan>, table: Table, scope: Scope, r: Replacement, f: Refusal, done: set<Id>)
    requires NoSnapshots(plans) && Ground(f, plans, table, scope, r)
    ensures ReplacedPart(plans, table, scope, r, done) == table && Replaced(plans, table, scope, r) == table
  {
    hide Ground, CanReplace, ScopePlan, NextByReplacement;
    RefusedExactly(plans, table, scope, r);
  }

  /** A replacement that is not refused supersedes the row it was for, one version on, by a link to its successor, and
      adds the successor with a link back; the reason and the time are the same in both. No other row changes. */
  lemma ReplacementLeaves(plans: seq<Plan>, table: Table, scope: Scope, r: Replacement, a: Assignment)
    requires Keyed(table) && NoSnapshots(plans) && Row(table, r.previous, a)
    requires forall f :: !Ground(f, plans, table, scope, r)
    ensures var b := r.successor;
            Replaced(plans, table, scope, r) ==
            table[r.previous := AssignmentRecord(Assignment(
                    r.previous, a.tenant, a.event, a.plan, a.round, a.submission, a.reviewer, Superseded, a.predecessor,
                    Some(b.id), Some(r.reason), Some(Lineage(a.predecessor, Some(b.id), r.reason, b.updatedAt)),
                    r.expectedVersion + 1, b.updatedAt))]
                 [b.id := AssignmentRecord(Assignment(
                    b.id, scope.tenant, scope.event, scope.plan, scope.round, b.submission, r.reviewer, b.status,
                    Some(r.previous), None, None, Some(Lineage(Some(r.previous), None, r.reason, b.updatedAt)), b.version,
                    b.updatedAt))]
  {
    hide Ground, Admitted, Blank, BelongsTo, ScopePlan, Commit;
    RefusedExactly(plans, table, scope, r);
    var plan := ScopePlan(plans, scope).value;
    ScopePlanIsPlanOf(plans, scope, plan);
    ReplacementWrites(table, plan, r);
    assert Shown(table, plan)[r.previous] == a;
  }

  /** A replacement reports the assignments over its submission that the table now holds and that are not superseded. */
  lemma ReplacementReportsActive(plans: seq<Plan>, plan: Plan, table: Table, scope: Scope, r: Replacement, a: Assignment, id: Id)
    requires Keyed(table) && NoSnapshots(plans) && IsPlanOf(plans, scope, plan) && Row(table, r.previous, a)
    requires forall f :: !Ground(f, plans, table, scope, r)
    ensures var t := Replaced(plans, table, scope, r);
            id in ReportedByReplacement(Shown(table, plan), scope, r) <==>
            exists b :: Row(t, id, b) && InScope(b, scope) && b.submission == a.submission && b.status != Superseded
  {
    hide Ground, Admitted, Blank, ScopePlan, Replaced, NextByReplacement, Shown, CanReplace;
    RefusedExactly(plans, table, scope, r);
    ScopePlanIsPlanOf(plans, scope, plan);
    assert plan.snapshot.None?;
    var t := Replaced(plans, table, scope, r);
    ReplacementIsReread(plans, table, scope, plan, r);
    ShownIsRow(table, plan, scope, r.previous);
    ShownIsRow(t, plan, scope, id);
    ReplacedIsShown(plan, table, scope, r);
  }

  lemma ReplacementIsReread(plans: seq<Plan>, table: Table, scope: Scope, plan: Plan, r: Replacement)
    requires Keyed(table) && NoSnapshots(plans) && ScopePlan(plans, scope) == Some(plan) && IsPlanOf(plans, scope, plan)
    requires CanReplace(Some(plan), table, scope, r)
    ensures Shown(Replaced(plans, table, scope, r), plan) == NextByReplacement(Shown(table, plan), r)
  {
    hide Admitted, Blank, ScopePlan;
    GenerationIsReread(table, plan, NextByReplacement(Shown(table, plan), r));
  }

  lemma ReplacedIsShown(plan: Plan, table: Table, scope: Scope, r: Replacement)
    requires CanReplace(Some(plan), table, scope, r)
    ensures r.previous in Shown(table, plan) && Matches(Shown(table, plan)[r.previous], scope)
  {
    hide Admitted, Blank, Shown;
  }

  // ---------------------------------------------------------------------------------------------
  // Replacements that come too late
  // ---------------------------------------------------------------------------------------------

  /** Once anything has raised the version of an assignment after a caller read it, that caller's replacement is refused,
      then and after any later run, and writes nothing. */
  lemma StaleReplacementNeverCommits(plans: seq<Plan>, table: Table, events: seq<Event>, more: seq<Event>,
                                     scope: Scope, r: Replacement, done: set<Id>)
    requires Keyed(table) && NoSnapshots(plans) && NoLineageEvents(events) && NoLineageEvents(more)
    requires HasAssignment(table, r.previous) && r.expectedVersion <= table[r.previous].assignment.version
    requires var t := Exec(plans, table, events);
             HasAssignment(t, r.previous) && t[r.previous].assignment.version != r.expectedVersion
    ensures var u := Exec(plans, Exec(plans, table, events), more);
            ReplacedPart(plans, u, scope, r, done) == u && Replaced(plans, u, scope, r) == u
  {
    hide Exec, NoLineageEvents, Keyed, ReplacedPart, Replaced;
    var t := Exec(plans, table, events);
    var u := Exec(plans, t, more);
    RunsMoveOn(plans, table, events);
    RunsMoveOn(plans, t, more);
    assert OnwardRow(table[r.previous], t[r.previous]);
    assert OnwardRow(t[r.previous], u[r.previous]);
    var a := u[r.previous].assignment;
    assert Row(u, r.previous, a) && a.version != r.expectedVersion;
    assert Ground(StaleVersion, plans, u, scope, r);
    RefusedWritesNothing(plans, u, scope, r, StaleVersion, done);
  }

  /** Of two replacements of one assignment at most one ever takes effect: once the row was written by one, every
      other is refused after any later run. */
  lemma OneReplacementWins(plans: seq<Plan>, table: Table, scope: Scope, r: Replacement, done: set<Id>, events: seq<Event>,
                           other: Scope, late: Replacement, written: set<Id>)
    requires Keyed(table) && NoSnapshots(plans) && NoLineageEvents(events)
    requires r.previous in done && ReplacedPart(plans, table, scope, r, done) != table && late.previous == r.previous
    ensures var u := Exec(plans, ReplacedPart(plans, table, scope, r, done), events);
            ReplacedPart(plans, u, other, late, written) == u && Replaced(plans, u, other, late) == u
  {
    hide Exec, NoLineageEvents, Admitted, Blank, Matches, ScopePlan, Ground;
    var t := ReplacedPart(plans, table, scope, r, done);
    var plan := ScopePlan(plans, scope).value;
    ScopePlanIsPlanOf(plans, scope, plan);
    assert Keyed(t) by { ReplacementIsStepOk(plans, table, scope, r, done); }
    RunsMoveOn(plans, t, events);
    var u := Exec(plans, t, events);
    assert t[r.previous].AssignmentRecord? && t[r.previous].assignment.status == Superseded;
    assert OnwardRow(t[r.previous], u[r.previous]);
    IsSuperseded(plans, u, other, late);
    RefusedWritesNothing(plans, u, other, late, AlreadySuperseded, written);
  }

  lemma IsSuperseded(plans: seq<Plan>, table: Table, scope: Scope, r: Replacement)
    requires HasAssignment(table, r.previous) && table[r.previous].assignment.status == Superseded
    ensures Ground(AlreadySuperseded, plans, table, scope, r)
  {
    assert Row(table, r.previous, table[r.previous].assignment);
  }
}
