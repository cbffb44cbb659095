/** Reconciling a CRM contact merge: every record that refers to a retired contact is rewired to the survivor, one
    update at a time and without a transaction. The audit id makes an interrupted reconciliation resumable. */
module CrmMerge {
  import opened Basics
  import opened CrmRules
  import opened OrderedMap

  type Id = string

  datatype Status = Active | Merged | OtherStatus

  datatype Contact = Contact(org: Id, status: Status, mergedInto: Option<Id>, mergeAudit: Option<Id>)

  /** An event participant's link to a contact; old records carry only `contactId`. */
  datatype Link = Link(org: Id, eventId: Id, participantId: Option<Id>, crmContactId: Option<Id>, contactId: Id,
                       source: Option<Id>, audit: Option<Id>)

  /** A note or a pipeline entry. */
  datatype Item = Item(org: Id, contactId: Id, source: Option<Id>, audit: Option<Id>, content: string)

  datatype Segment = Segment(org: Id, rules: Json, audits: seq<Id>, version: int)

  datatype Summary = Summary(survivor: Id, retired: set<Id>, links: nat, notes: nat, segments: nat, pipeline: nat)

  datatype Store = Store(contacts: map<Id, Contact>, links: map<Id, Link>, notes: map<Id, Item>,
                         pipeline: map<Id, Item>, segments: map<Id, Segment>, results: map<(Id, Id), Summary>)

  datatype Input = Input(org: Id, survivor: Id, retired: set<Id>, audit: Id)

  function Effective(l: Link): Id
  {
    if l.crmContactId.Some? then l.crmContactId.value else l.contactId
  }

  function Participant(l: Link): Id
  {
    if l.participantId.Some? then l.participantId.value else Effective(l)
  }

  predicate FromRetired(source: Option<Id>, audit: Option<Id>, x: Input)
  {
    audit == Some(x.audit) && source.Some? && source.value in x.retired
  }

  // ---------------------------------------------------------------------------------------------
  // Which records a reconciliation touches
  // ---------------------------------------------------------------------------------------------

  predicate LinkTarget(x: Input, l: Link)
  {
    l.org == x.org && (Effective(l) in x.retired || FromRetired(l.source, l.audit, x))
  }

  /** Notes and pipeline entries are listed by contact, for the retired contacts and the survivor. */
  predicate ItemTarget(x: Input, i: Item)
  {
    && i.org == x.org && i.contactId in x.retired + {x.survivor}
    && (i.contactId in x.retired || FromRetired(i.source, i.audit, x))
  }

  predicate SegmentTarget(x: Input, g: Segment)
  {
    g.org == x.org && (x.audit in g.audits || Replace(g.rules, x.retired, x.survivor).changed)
  }

  function LinkTargets(x: Input, links: map<Id, Link>): set<Id>
  {
    set id | id in links && LinkTarget(x, links[id])
  }

  function ItemTargets(x: Input, items: map<Id, Item>): set<Id>
  {
    set id | id in items && ItemTarget(x, items[id])
  }

  function SegmentTargets(x: Input, segments: map<Id, Segment>): set<Id>
  {
    set id | id in segments && SegmentTarget(x, segments[id])
  }

  // ---------------------------------------------------------------------------------------------
  // What happens to one record
  // ---------------------------------------------------------------------------------------------

  function SourceOr(source: Option<Id>, id: Id): Option<Id>
  {
    if source.Some? then source else Some(id)
  }

  function RewireLink(x: Input, l: Link): Link
  {
    if l.org != x.org || Effective(l) !in x.retired then l
    else Link(l.org, l.eventId, Some(Participant(l)), Some(x.survivor), x.survivor, SourceOr(l.source, Effective(l)),
              Some(x.audit))
  }

  function RewireItem(x: Input, i: Item): Item
  {
    if i.org != x.org || i.contactId !in x.retired then i
    else i.(contactId := x.survivor, source := SourceOr(i.source, i.contactId), audit := Some(x.audit))
  }

  /** Insertion-ordered union with one more audit id. */
  function WithAudit(audits: seq<Id>, audit: Id): (r: seq<Id>)
    ensures forall a :: a in r <==> a in audits || a == audit
  {
    AddAll([], audits + [audit])
  }

  function RewireSegment(x: Input, g: Segment): Segment
  {
    if !SegmentTarget(x, g) || x.audit in g.audits then g
    else g.(rules := Replace(g.rules, x.retired, x.survivor).value, audits := WithAudit(g.audits, x.audit),
            version := g.version + 1)
  }

  /** A link that an earlier, different rewiring under the same audit id left on a third contact. */
  predicate LinkBlocked(x: Input, l: Link)
  {
    LinkTarget(x, l) && Effective(l) !in x.retired && Effective(l) != x.survivor
  }

  // ---------------------------------------------------------------------------------------------
  // The whole reconciliation
  // ---------------------------------------------------------------------------------------------

  ghost predicate Clash(x: Input, a: Link, b: Link)
  {
    && a.org == x.org && b.org == x.org
    && Effective(a) in x.retired + {x.survivor} && Effective(b) in x.retired + {x.survivor}
    && a.eventId == b.eventId && Participant(a) != Participant(b)
  }

  ghost predicate ParticipantConflict(x: Input, s: Store)
  {
    exists i, j :: i in s.links && j in s.links && Clash(x, s.links[i], s.links[j])
  }

  predicate ContactsMerged(x: Input, s: Store)
  {
    && x.survivor in s.contacts && s.contacts[x.survivor].org == x.org && s.contacts[x.survivor].status == Active
    && forall id :: id in x.retired ==>
         && id in s.contacts && s.contacts[id].org == x.org && s.contacts[id].status == Merged
         && s.contacts[id].mergedInto == Some(x.survivor) && s.contacts[id].mergeAudit == Some(x.audit)
  }

  predicate WellFormed(x: Input)
  {
    x.retired != {} && x.survivor !in x.retired
  }

  /** An uninterrupted reconciliation gets past every check and conflict. */
  ghost predicate Admits(x: Input, s: Store)
  {
    && WellFormed(x) && (x.org, x.audit) !in s.results && ContactsMerged(x, s) && !ParticipantConflict(x, s)
    && forall id :: id in s.links ==> !LinkBlocked(x, s.links[id])
  }

  function Summarize(x: Input, s: Store): Summary
  {
    Summary(x.survivor, x.retired, |LinkTargets(x, s.links)|, |ItemTargets(x, s.notes)|, |SegmentTargets(x, s.segments)|,
            |ItemTargets(x, s.pipeline)|)
  }

  function RewireItems(x: Input, items: map<Id, Item>): map<Id, Item>
  {
    map id | id in items :: RewireItem(x, items[id])
  }

  function RewireLinks(x: Input, links: map<Id, Link>): map<Id, Link>
  {
    map id | id in links :: RewireLink(x, links[id])
  }

  function RewireSegments(x: Input, segments: map<Id, Segment>): map<Id, Segment>
  {
    map id | id in segments :: RewireSegment(x, segments[id])
  }

  /** Every record rewired; the command result not yet saved. */
  function Rewired(x: Input, s: Store): Store
  {
    s.(links := RewireLinks(x, s.links), notes := RewireItems(x, s.notes), pipeline := RewireItems(x, s.pipeline),
       segments := RewireSegments(x, s.segments))
  }

  function Finished(x: Input, s: Store): Store
  {
    Rewired(x, s).(results := s.results[(x.org, x.audit) := Summarize(x, s)])
  }

  /** `s` is `s0` with some of its records already rewired, in any order. */
  ghost predicate Partial(x: Input, s0: Store, s: Store)
  {
    && s.contacts == s0.contacts && s.results == s0.results
    && PartialLinks(x, s0.links, s.links) && PartialSegments(x, s0.segments, s.segments)
    && PartialItems(x, s0.notes, s.notes) && PartialItems(x, s0.pipeline, s.pipeline)
  }

  ghost predicate PartialLinks(x: Input, a: map<Id, Link>, b: map<Id, Link>)
  {
    b.Keys == a.Keys && forall id :: id in a ==> b[id] == a[id] || b[id] == RewireLink(x, a[id])
  }

  ghost predicate PartialSegments(x: Input, a: map<Id, Segment>, b: map<Id, Segment>)
  {
    b.Keys == a.Keys && forall id :: id in a ==> b[id] == a[id] || b[id] == RewireSegment(x, a[id])
  }

  ghost predicate PartialItems(x: Input, a: map<Id, Item>, b: map<Id, Item>)
  {
    b.Keys == a.Keys && forall id :: id in a ==> b[id] == a[id] || b[id] == RewireItem(x, a[id])
  }

  // ---------------------------------------------------------------------------------------------
  // Rewiring one record
  // ---------------------------------------------------------------------------------------------

  lemma RewiredLinkIsStable(x: Input, l: Link)
    requires WellFormed(x)
    ensures RewireLink(x, RewireLink(x, l)) == RewireLink(x, l)
    ensures Participant(RewireLink(x, l)) == Participant(l) && RewireLink(x, l).eventId == l.eventId
    ensures Effective(l) in x.retired + {x.survivor} <==> Effective(RewireLink(x, l)) in x.retired + {x.survivor}
    ensures RewireLink(x, l).org == l.org
    ensures l.org == x.org ==> Effective(RewireLink(x, l)) !in x.retired
    ensures LinkBlocked(x, RewireLink(x, l)) ==> LinkBlocked(x, l)
  {
  }

  // ---------------------------------------------------------------------------------------------
  // Resuming
  // ---------------------------------------------------------------------------------------------

  lemma PartialKeepsClash(x: Input, s0: Store, s: Store, i: Id, j: Id)
    requires WellFormed(x) && Partial(x, s0, s) && i in s0.links && j in s0.links
    ensures Clash(x, s.links[i], s.links[j]) <==> Clash(x, s0.links[i], s0.links[j])
  {
    hide RewireLink, PartialItems, RewireSegment;
    RewiredLinkIsStable(x, s0.links[i]);
    RewiredLinkIsStable(x, s0.links[j]);
  }

  lemma PartialKeepsVerdict(x: Input, s0: Store, s: Store)
    requires WellFormed(x) && Partial(x, s0, s)
    ensures ParticipantConflict(x, s) <==> ParticipantConflict(x, s0)
  {
    hide Clash, RewireLink, PartialItems, RewireSegment;
    forall i, j | i in s0.links && j in s0.links
      ensures Clash(x, s.links[i], s.links[j]) <==> Clash(x, s0.links[i], s0.links[j])
    {
      PartialKeepsClash(x, s0, s, i, j);
    }
  }

  lemma PartialRewiresAlike(x: Input, s0: Store, s: Store)
    requires WellFormed(x) && Partial(x, s0, s)
    ensures Rewired(x, s) == Rewired(x, s0)
  {
    forall id | id in s0.links { RewiredLinkIsStable(x, s0.links[id]); }
    assert Rewired(x, s).links == Rewired(x, s0).links;
    assert Rewired(x, s).segments == Rewired(x, s0).segments;
  }

  /** From any state an interrupted reconciliation can leave, running it again with the same audit id gets past
      every check and ends in the same records as an uninterrupted run. */
  lemma MergeIsResumable(x: Input, s0: Store, s: Store)
    requires Admits(x, s0) && Partial(x, s0, s)
    ensures Admits(x, s)
    ensures Rewired(x, s) == Rewired(x, s0)
  {
    PartialKeepsVerdict(x, s0, s);
    PartialRewiresAlike(x, s0, s);
    forall id | id in s.links ensures !LinkBlocked(x, s.links[id]) {
      RewiredLinkIsStable(x, s0.links[id]);
    }
  }

  /** However many attempts are interrupted, each starting where the one before stopped, the reconciliation still
      gets through and ends in the records of a single uninterrupted run. */
  lemma {:induction false} MergeSurvivesInterruptions(x: Input, attempts: seq<Store>)
    requires attempts != [] && Admits(x, attempts[0])
    requires forall i :: 0 < i < |attempts| ==> Partial(x, attempts[i - 1], attempts[i])
    ensures var last := attempts[|attempts| - 1];
            Admits(x, last) && Rewired(x, last) == Rewired(x, attempts[0])
    decreases |attempts|
  {
    hide Partial, Rewired, Admits;
    if |attempts| > 1 {
      assert Partial(x, attempts[1 - 1], attempts[1]);
      MergeIsResumable(x, attempts[0], attempts[1]);
      forall i | 0 < i < |attempts[1..]| ensures Partial(x, attempts[1..][i - 1], attempts[1..][i]) {
        assert Partial(x, attempts[i + 1 - 1], attempts[i + 1]);
      }
      MergeSurvivesInterruptions(x, attempts[1..]);
    }
  }

  // ---------------------------------------------------------------------------------------------
  // Counting
  // ---------------------------------------------------------------------------------------------

  /** The record still shows, after rewiring, which retired contact it came from. */
  predicate Traceable(x: Input, source: Option<Id>)
  {
    source.Some? ==> source.value in x.retired
  }

  predicate LinkTraceable(x: Input, l: Link)
  {
    l.org == x.org && Effective(l) in x.retired ==> Traceable(x, l.source)
  }

  predicate ItemTraceable(x: Input, i: Item)
  {
    i.org == x.org && i.contactId in x.retired ==> Traceable(x, i.source)
  }

  ghost predicate AllTraceable(x: Input, s: Store)
  {
    && (forall id :: id in s.links ==> LinkTraceable(x, s.links[id]))
    && (forall id :: id in s.notes ==> ItemTraceable(x, s.notes[id]))
    && (forall id :: id in s.pipeline ==> ItemTraceable(x, s.pipeline[id]))
  }

  lemma TraceableCountsMatch(x: Input, s0: Store, s: Store)
    requires WellFormed(x) && Partial(x, s0, s) && AllTraceable(x, s0)
    ensures Summarize(x, s) == Summarize(x, s0)
  {
    assert LinkTargets(x, s.links) == LinkTargets(x, s0.links);
    assert ItemTargets(x, s.notes) == ItemTargets(x, s0.notes);
    assert ItemTargets(x, s.pipeline) == ItemTargets(x, s0.pipeline);
    assert SegmentTargets(x, s.segments) == SegmentTargets(x, s0.segments);
  }

  /** Once rewired, a record whose origin is another merge is no longer a target, and nothing becomes one. */
  lemma RewiredLinkTargets(x: Input, links: map<Id, Link>)
    requires WellFormed(x)
    ensures LinkTargets(x, RewireLinks(x, links)) <= LinkTargets(x, links)
    ensures forall id :: id in links && !LinkTraceable(x, links[id]) ==>
              id in LinkTargets(x, links) && id !in LinkTargets(x, RewireLinks(x, links))
  {
  }

  lemma RewiredItemTargets(x: Input, items: map<Id, Item>)
    requires WellFormed(x)
    ensures ItemTargets(x, RewireItems(x, items)) <= ItemTargets(x, items)
    ensures forall id :: id in items && !ItemTraceable(x, items[id]) ==>
              id in ItemTargets(x, items) && id !in ItemTargets(x, RewireItems(x, items))
  {
  }

  lemma {:induction false} FewerMembers(a: set<Id>, b: set<Id>, id: Id)
    requires a <= b && id in b && id !in a
    ensures |a| < |b|
  {
    if a != {} {
      var other :| other in a;
      FewerMembers(a - {other}, b - {other}, id);
    }
  }

  lemma UntraceableLosesCount(x: Input, s0: Store)
    requires WellFormed(x) && !AllTraceable(x, s0)
    ensures Summarize(x, Rewired(x, s0)) != Summarize(x, s0)
  {
    hide LinkTraceable, ItemTraceable, LinkTargets, ItemTargets, SegmentTargets, RewireLinks, RewireItems, RewireSegments;
    RewiredLinkTargets(x, s0.links);
    RewiredItemTargets(x, s0.notes);
    RewiredItemTargets(x, s0.pipeline);
    if id :| id in s0.links && !LinkTraceable(x, s0.links[id]) {
      FewerMembers(LinkTargets(x, RewireLinks(x, s0.links)), LinkTargets(x, s0.links), id);
    } else if id :| id in s0.notes && !ItemTraceable(x, s0.notes[id]) {
      FewerMembers(ItemTargets(x, RewireItems(x, s0.notes)), ItemTargets(x, s0.notes), id);
    } else if id :| id in s0.pipeline && !ItemTraceable(x, s0.pipeline[id]) {
      FewerMembers(ItemTargets(x, RewireItems(x, s0.pipeline)), ItemTargets(x, s0.pipeline), id);
    }
  }

  /** The reported counts survive every interruption exactly when no record about to be rewired came from a contact
      outside this merge. Where one did, they are already lost when the process stops after the last update, before it
      saves its result. */
  lemma CountsSurviveExactlyWhenTraceable(x: Input, s0: Store)
    requires Admits(x, s0)
    ensures (forall s :: Partial(x, s0, s) ==> Summarize(x, s) == Summarize(x, s0)) <==> AllTraceable(x, s0)
    ensures Partial(x, s0, Rewired(x, s0))
    ensures Summarize(x, Rewired(x, s0)) == Summarize(x, s0) <==> AllTraceable(x, s0)
  {
    hide Partial, Summarize, AllTraceable, ContactsMerged, ParticipantConflict, LinkBlocked, Rewired;
    assert Partial(x, s0, Rewired(x, s0)) by { RewiredIsPartial(x, s0); }
    if AllTraceable(x, s0) {
      forall s | Partial(x, s0, s) ensures Summarize(x, s) == Summarize(x, s0) {
        TraceableCountsMatch(x, s0, s);
      }
    } else {
      UntraceableLosesCount(x, s0);
    }
  }

  lemma RewiredIsPartial(x: Input, s0: Store)
    ensures Partial(x, s0, Rewired(x, s0))
  {
  }

  // ---------------------------------------------------------------------------------------------
  // The final records
  // ---------------------------------------------------------------------------------------------

  lemma FinishedRecordsNameNoRetiredContact(x: Input, s: Store)
    requires WellFormed(x)
    ensures var f := Finished(x, s);
            && (forall id :: id in f.links && f.links[id].org == x.org ==> Effective(f.links[id]) !in x.retired)
            && (forall id :: id in f.notes && f.notes[id].org == x.org ==> f.notes[id].contactId !in x.retired)
            && (forall id :: id in f.pipeline && f.pipeline[id].org == x.org ==>
                  f.pipeline[id].contactId !in x.retired)
  {
    forall id | id in s.links { RewiredLinkIsStable(x, s.links[id]); }
  }

  /** A segment already marked with the audit id is skipped, whatever its rules say: the finished rules name no
      retired contact exactly when no marked segment did. */
  lemma FinishedRulesNameNoRetiredContact(x: Input, s: Store)
    requires WellFormed(x)
    ensures (forall id :: id in s.segments && s.segments[id].org == x.org ==>
               !Mentions(Finished(x, s).segments[id].rules, x.retired))
       <==> (forall id :: id in s.segments && s.segments[id].org == x.org && x.audit in s.segments[id].audits ==>
               !Mentions(s.segments[id].rules, x.retired))
  {
    forall id | id in s.segments { ReplaceRenames(s.segments[id].rules, x.retired, x.survivor); }
  }

  /** Each segment whose rules named a retired contact is renamed and its version rises by exactly one; every other
      segment, and every record of another organization, is untouched. */
  lemma FinishedSegmentsRiseByOne(x: Input, s: Store, id: Id)
    requires WellFormed(x) && id in s.segments
    ensures var g, h := s.segments[id], Finished(x, s).segments[id];
            if g.org == x.org && x.audit !in g.audits && Mentions(g.rules, x.retired) then
              && h.version == g.version + 1 && Renames(g.rules, h.rules, x.retired, x.survivor)
              && x.audit in h.audits && forall a :: a in g.audits ==> a in h.audits
            else h == g
  {
    ReplaceRenames(s.segments[id].rules, x.retired, x.survivor);
  }
}
