/** Writing assignments: what a replacement and a distribution accept, the generation each computes from the assignments
    it was shown, and the table after the generation is committed. */
module AssignmentGenerations {
  import opened Basics
  import opened AssignmentModel
  import opened AssignmentOverlay

  type Table = map<Id, Record>

  datatype Scope = Scope(tenant: string, event: string, plan: string, round: string, submission: Option<string>)

  datatype Replacement = Replacement(
    previous: Id, reviewer: string, successor: Assignment, expectedVersion: int, reason: string, authorizedAt: Option<int>)

  datatype Expected = Expected(id: Id, version: int)

  datatype Distribution = Distribution(
    desired: seq<Assignment>, expected: seq<Expected>, reason: string, authorizedAt: Option<int>, closedCleanup: bool)

  predicate Matches(a: Assignment, scope: Scope)
  {
    && a.tenant == scope.tenant
    && a.event == scope.event
    && a.plan == scope.plan
    && a.round == scope.round
    && (scope.submission.Some? ==> a.submission == scope.submission.value)
  }

  predicate IsActive(status: Status)
  {
    status != Superseded && status != Abstained
  }

  predicate Blank(s: string)
  {
    forall c :: c in s ==>
      c in {' ', '\t', '\n', '\r', '\U{000B}', '\U{000C}', '\U{00A0}', '\U{1680}', '\U{2028}', '\U{2029}', '\U{202F}',
            '\U{205F}', '\U{3000}', '\U{FEFF}'} || '\U{2000}' <= c <= '\U{200A}'
  }

  /** Each row is stored under its own id. */
  ghost predicate Keyed(table: Table)
  {
    forall id :: id in table ==> table[id].Key() == id
  }

  predicate HasAssignment(table: Table, id: Id)
  {
    id in table && table[id].AssignmentRecord?
  }

  /** The assignments a plan shows: its rows, or its committed snapshot raised by newer rows. */
  function Shown(table: Table, plan: Plan): map<Id, Assignment>
  {
    var own := map id | id in table && table[id].AssignmentRecord? && BelongsTo(table[id].assignment, plan) ::
                 table[id].assignment;
    if plan.snapshot.None? then own
    else
      var committed := Committed(plan, plan.snapshot.value).m;
      map id | id in committed ::
        if id in own && own[id].version > committed[id].version then own[id] else committed[id]
  }

  function FindRound(rounds: seq<Round>, id: string): Option<Round>
  {
    if rounds == [] then None
    else if rounds[0].id == id then Some(rounds[0])
    else FindRound(rounds[1..], id)
  }

  /** Admission of a write at `authorizedAt`; `None` is a time that does not parse. */
  predicate Admitted(plan: Plan, roundId: string, authorizedAt: Option<int>, requireRoundOpen: bool)
  {
    var round := FindRound(plan.rounds, roundId);
    && round.Some?
    && authorizedAt.Some?
    && plan.open
    && !(plan.closesAt.Some? && plan.closesAt.value <= authorizedAt.value)
    && !(requireRoundOpen && round.value.opensAt.Some? && round.value.opensAt.value > authorizedAt.value)
    && !(round.value.closesAt.Some? && round.value.closesAt.value <= authorizedAt.value)
  }

  function ScopePlan(plans: seq<Plan>, scope: Scope): Option<Plan>
  {
    var p := PlanById(plans, scope.plan);
    if p.Found? && p.value.tenant == scope.tenant && p.value.event == scope.event then Some(p.value) else None
  }

  function Retire(a: Assignment, successor: Option<Id>, reason: string, at: int): Assignment
  {
    a.(status := Superseded,
       successor := successor,
       supersededReason := Some(reason),
       lineage := Some(Lineage(a.predecessor, successor, reason, at)),
       version := a.version + 1,
       updatedAt := at)
  }

  // ---------------------------------------------------------------------------------------------
  // Replacement
  // ---------------------------------------------------------------------------------------------

  predicate CanReplace(plan: Option<Plan>, table: Table, scope: Scope, r: Replacement)
  {
    && plan.Some?
    && Admitted(plan.value, scope.round, r.authorizedAt, true)
    && var shown := Shown(table, plan.value);
    && r.previous in shown
    && Matches(shown[r.previous], scope)
    && shown[r.previous].status != Superseded
    && shown[r.previous].version == r.expectedVersion
    && r.successor.id != r.previous
    && IsActive(r.successor.status)
    && r.successor.reviewer == r.reviewer
    && Matches(r.successor, scope)
    && !Blank(r.reason)
    && r.successor.id !in table
  }

  function Succeed(successor: Assignment, previous: Id, reason: string): Assignment
  {
    successor.(
      predecessor := Some(previous),
      successor := None,
      supersededReason := None,
      lineage := Some(Lineage(Some(previous), None, reason, successor.updatedAt)))
  }

  function NextByReplacement(shown: map<Id, Assignment>, r: Replacement): map<Id, Assignment>
  {
    if r.previous !in shown then shown
    else shown[r.previous := Retire(shown[r.previous], Some(r.successor.id), r.reason, r.successor.updatedAt)]
         [r.successor.id := Succeed(r.successor, r.previous, r.reason)]
  }

  /** Commits the ids in `done`, all of them or the part written before a crash. */
  function CommitPart(table: Table, next: map<Id, Assignment>, done: set<Id>): (t: Table)
    ensures forall id :: id in t <==> id in table || (id in next && id in done)
    ensures forall id :: id in t ==> t[id] == if id in next && id in done then AssignmentRecord(next[id]) else table[id]
  {
    table + map id | id in next && id in done :: AssignmentRecord(next[id])
  }

  function Commit(table: Table, next: map<Id, Assignment>): Table
  {
    CommitPart(table, next, next.Keys)
  }

  /** The assignments a replacement reports as active, of the submission it was for. */
  function ReportedByReplacement(shown: map<Id, Assignment>, scope: Scope, r: Replacement): set<Id>
  {
    var reported :=
      if scope.submission.Some? || r.previous !in shown then scope
      else scope.(submission := Some(shown[r.previous].submission));
    var next := NextByReplacement(shown, r);
    set id | id in next && Matches(next[id], reported) && next[id].status != Superseded
  }

  function Replaced(plans: seq<Plan>, table: Table, scope: Scope, r: Replacement): Table
  {
    var plan := ScopePlan(plans, scope);
    if CanReplace(plan, table, scope, r) then Commit(table, NextByReplacement(Shown(table, plan.value), r)) else table
  }

  /** The table after a replacement that wrote the ids in `done` before it ended or crashed. */
  function ReplacedPart(plans: seq<Plan>, table: Table, scope: Scope, r: Replacement, done: set<Id>): Table
  {
    var plan := ScopePlan(plans, scope);
    if CanReplace(plan, table, scope, r) then CommitPart(table, NextByReplacement(Shown(table, plan.value), r), done) else table
  }

  // ---------------------------------------------------------------------------------------------
  // Distribution
  // ---------------------------------------------------------------------------------------------

  function Submissions(desired: seq<Assignment>): set<string>
  {
    set a | a in desired :: a.submission
  }

  function TargetSubmissions(shown: map<Id, Assignment>, scope: Scope, d: Distribution): set<string>
  {
    Submissions(d.desired) +
    set e | e in d.expected && e.id in shown && Matches(shown[e.id], scope) :: shown[e.id].submission
  }

  predicate InTarget(shown: map<Id, Assignment>, scope: Scope, d: Distribution, a: Assignment)
  {
    Matches(a, scope) && a.submission in TargetSubmissions(shown, scope, d)
  }

  function ActiveTarget(shown: map<Id, Assignment>, scope: Scope, d: Distribution): set<Id>
  {
    set id | id in shown && InTarget(shown, scope, d, shown[id]) && IsActive(shown[id].status)
  }

  ghost predicate DistinctExpected(expected: seq<Expected>)
  {
    forall i, j :: 0 <= i < j < |expected| ==> expected[i].id != expected[j].id
  }

  /** The expected versions are those of the active target assignments, no more and no fewer. */
  ghost predicate PreviewStands(shown: map<Id, Assignment>, scope: Scope, d: Distribution)
  {
    var active := ActiveTarget(shown, scope, d);
    && DistinctExpected(d.expected)
    && (forall e :: e in d.expected ==> e.id in active && shown[e.id].version == e.version)
    && (forall id :: id in active ==> Expected(id, shown[id].version) in d.expected)
  }

  predicate CanAssign(shown: map<Id, Assignment>, table: Table, scope: Scope, a: Assignment)
  {
    && IsActive(a.status)
    && Matches(a, scope)
    && (a.id !in shown ==> a.id !in table)
    && (a.id in shown ==>
          && Matches(shown[a.id], scope)
          && IsActive(shown[a.id].status)
          && shown[a.id].reviewer == a.reviewer
          && shown[a.id].version == a.version)
  }

  ghost predicate DistinctIds(desired: seq<Assignment>)
  {
    forall i, j :: 0 <= i < j < |desired| ==> desired[i].id != desired[j].id
  }

  ghost predicate CanDistribute(plan: Option<Plan>, table: Table, scope: Scope, d: Distribution)
  {
    && !Blank(d.reason)
    && plan.Some?
    && (d.closedCleanup || Admitted(plan.value, scope.round, d.authorizedAt, false))
    && var shown := Shown(table, plan.value);
    && PreviewStands(shown, scope, d)
    && DistinctIds(d.desired)
    && (forall a :: a in d.desired ==> CanAssign(shown, table, scope, a))
  }

  /** The time retired assignments get: of the first desired one, else of some active one, else of the plan. */
  ghost predicate IsRetirementTime(shown: map<Id, Assignment>, plan: Plan, scope: Scope, d: Distribution, at: int)
  {
    var active := ActiveTarget(shown, scope, d);
    if d.desired != [] then at == d.desired[0].updatedAt
    else if active != {} then exists id :: id in active && at == shown[id].updatedAt
    else at == plan.updatedAt
  }

  function Merge(shown: map<Id, Assignment>, a: Assignment): (r: Assignment)
    ensures r.id == a.id && r.status == a.status && r.version == a.version && r.submission == a.submission
    ensures r.tenant == a.tenant && r.event == a.event && r.plan == a.plan && r.round == a.round && r.reviewer == a.reviewer
  {
    if a.id !in shown then a
    else
      var b := shown[a.id];
      a.(predecessor := if a.predecessor.Some? then a.predecessor else b.predecessor,
         successor := if a.successor.Some? then a.successor else b.successor,
         supersededReason := if a.supersededReason.Some? then a.supersededReason else b.supersededReason,
         lineage := if a.lineage.Some? then a.lineage else b.lineage)
  }

  function WithDesired(next: map<Id, Assignment>, shown: map<Id, Assignment>, desired: seq<Assignment>): map<Id, Assignment>
  {
    if desired == [] then next
    else
      var a := desired[|desired| - 1];
      WithDesired(next, shown, desired[..|desired| - 1])[a.id := Merge(shown, a)]
  }

  lemma {:induction false} WithDesiredAt(next: map<Id, Assignment>, shown: map<Id, Assignment>, desired: seq<Assignment>, id: Id)
    ensures var r := WithDesired(next, shown, desired);
            && (id in r <==> id in next || exists a :: a in desired && a.id == id)
            && (id in r ==>
                  (exists a :: a in desired && a.id == id && r[id] == Merge(shown, a)) ||
                  (id in next && r[id] == next[id] && forall a :: a in desired ==> a.id != id))
  {
    hide Merge;
    if desired != [] {
      var init, a := desired[..|desired| - 1], desired[|desired| - 1];
      WithDesiredAt(next, shown, init, id);
      assert forall b :: b in desired <==> b in init || b == a by { assert desired == init + [a]; }
    }
  }

  function Dropped(shown: map<Id, Assignment>, scope: Scope, d: Distribution): set<Id>
  {
    var desiredIds := set a | a in d.desired :: a.id;
    ActiveTarget(shown, scope, d) - desiredIds
  }

  function RetireAll(shown: map<Id, Assignment>, ids: set<Id>, reason: string, at: int): map<Id, Assignment>
  {
    map id | id in shown :: if id in ids then Retire(shown[id], None, reason, at) else shown[id]
  }

  function NextByDistribution(shown: map<Id, Assignment>, scope: Scope, d: Distribution, at: int): map<Id, Assignment>
  {
    WithDesired(RetireAll(shown, Dropped(shown, scope, d), d.reason, at), shown, d.desired)
  }

  /** The assignments a distribution reports as active. */
  function ReportedByDistribution(shown: map<Id, Assignment>, scope: Scope, d: Distribution, at: int): set<Id>
  {
    var next := NextByDistribution(shown, scope, d, at);
    set id | id in next && InTarget(shown, scope, d, next[id]) && next[id].status != Superseded
  }

  /** The table after a distribution that wrote the ids in `done` before it ended or crashed. */
  ghost function Distributed(plans: seq<Plan>, table: Table, scope: Scope, d: Distribution, at: int, done: set<Id>): Table
  {
    var plan := ScopePlan(plans, scope);
    if CanDistribute(plan, table, scope, d) && IsRetirementTime(Shown(table, plan.value), plan.value, scope, d, at)
    then CommitPart(table, NextByDistribution(Shown(table, plan.value), scope, d, at), done)
    else table
  }
}
