/** Reviewer assignments, the plans they belong to, and the Airtable rows both are stored in. */
module AssignmentModel {
  import opened Basics

  datatype Id = Id(text: string)

  datatype Status = Assigned | InProgress | Submitted | Abstained | Superseded

  datatype Lineage = Lineage(predecessor: Option<Id>, successor: Option<Id>, reason: string, supersededAt: int)

  /** Optional link fields are `None` when absent or null. Timestamps are numbers: they have one fixed format, in which
      text order is time order. */
  datatype Assignment = Assignment(
    id: Id,
    tenant: string,
    event: string,
    plan: string,
    round: string,
    submission: string,
    reviewer: string,
    status: Status,
    predecessor: Option<Id>,
    successor: Option<Id>,
    supersededReason: Option<string>,
    lineage: Option<Lineage>,
    version: int,
    updatedAt: int)

  /** A row of the Evaluations table: an assignment, or a review, suggestion or conflict. */
  datatype Record = AssignmentRecord(assignment: Assignment) | OtherRecord(otherId: Id) {
    function Key(): Id
    {
      if AssignmentRecord? then assignment.id else otherId
    }
  }

  datatype Round = Round(id: string, opensAt: Option<int>, closesAt: Option<int>)

  datatype Plan = Plan(
    id: string,
    tenant: string,
    event: string,
    open: bool,
    closesAt: Option<int>,
    rounds: seq<Round>,
    snapshot: Option<seq<Assignment>>,
    updatedAt: int)

  predicate BelongsTo(a: Assignment, plan: Plan)
  {
    a.tenant == plan.tenant && a.event == plan.event && a.plan == plan.id
  }

  /** `a` replaces `b` as the row of one assignment. */
  predicate Newer(a: Assignment, b: Assignment)
  {
    a.version > b.version || (a.version == b.version && a.updatedAt > b.updatedAt)
  }

  /** The assignments among the rows of the table, in order. */
  function AssignmentRows(records: seq<Record>): (rows: seq<Assignment>)
    ensures forall a :: a in rows <==> AssignmentRecord(a) in records
  {
    if records == [] then []
    else (if records[0].AssignmentRecord? then [records[0].assignment] else []) + AssignmentRows(records[1..])
  }
}
