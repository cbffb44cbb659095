/** What a finished merge did to each table, and what its report counts, told by the records before and after it. */
module CrmReport {
  import opened Basics
  import opened OrderedMap
  import opened CrmRules
  import opened CrmMerge

  /** The ids whose record differs. */
  function Differing<T(==)>(a: map<Id, T>, b: map<Id, T>): set<Id>
  {
    set id | id in a && id in b && a[id] != b[id]
  }

  /** Records that say they were rewired by this very merge. */
  predicate LinkCarries(x: Input, l: Link)
  {
    l.org == x.org && l.audit == Some(x.audit) && l.source.Some? && l.source.value in x.retired
  }

  predicate ItemCarries(x: Input, i: Item)
  {
    && i.org == x.org && i.audit == Some(x.audit) && i.source.Some? && i.source.value in x.retired
    && (i.contactId == x.survivor || i.contactId in x.retired)
  }

  predicate SegmentCarries(x: Input, g: Segment)
  {
    g.org == x.org && x.audit in g.audits
  }

  /** Each count is the number of records of its own table that the merge changed or that carried it before. */
  ghost predicate ReportCounts(x: Input, before: Store, after: Store, r: Summary)
  {
    && r.survivor == x.survivor && r.retired == x.retired
    && r.links == |Differing(before.links, after.links) + (set id | id in before.links && LinkCarries(x, before.links[id]))|
    && r.notes == |Differing(before.notes, after.notes) + (set id | id in before.notes && ItemCarries(x, before.notes[id]))|
    && r.pipeline ==
       |Differing(before.pipeline, after.pipeline) + (set id | id in before.pipeline && ItemCarries(x, before.pipeline[id]))|
    && r.segments ==
       |Differing(before.segments, after.segments) + (set id | id in before.segments && SegmentCarries(x, before.segments[id]))|
  }

  lemma LinksCounted(x: Input, links: map<Id, Link>)
    requires WellFormed(x)
    ensures LinkTargets(x, links) ==
            Differing(links, RewireLinks(x, links)) + (set id | id in links && LinkCarries(x, links[id]))
  {
  }

  lemma ItemsCounted(x: Input, items: map<Id, Item>)
    requires WellFormed(x)
    ensures ItemTargets(x, items) ==
            Differing(items, RewireItems(x, items)) + (set id | id in items && ItemCarries(x, items[id]))
  {
  }

  lemma SegmentsCounted(x: Input, segments: map<Id, Segment>)
    ensures SegmentTargets(x, segments) ==
            Differing(segments, RewireSegments(x, segments)) + (set id | id in segments && SegmentCarries(x, segments[id]))
  {
    forall id | id in segments
      ensures SegmentTarget(x, segments[id]) <==>
              RewireSegment(x, segments[id]) != segments[id] || SegmentCarries(x, segments[id])
    {
      assert RewireSegment(x, segments[id]) != segments[id] ==> SegmentTarget(x, segments[id]);
    }
  }

  /** The report of a merge counts what it did. */
  lemma MergeReportCounts(x: Input, s: Store)
    requires WellFormed(x)
    ensures ReportCounts(x, s, Finished(x, s), Summarize(x, s))
  {
    hide Differing, LinkCarries, ItemCarries, SegmentCarries, LinkTargets, ItemTargets, SegmentTargets;
    hide RewireLinks, RewireItems, RewireSegments;
    LinksCounted(x, s.links);
    ItemsCounted(x, s.notes);
    ItemsCounted(x, s.pipeline);
    SegmentsCounted(x, s.segments);
  }

  /** No record carried the merge before. */
  predicate FirstAttempt(x: Input, s: Store)
  {
    && (forall id :: id in s.links ==> !LinkCarries(x, s.links[id]))
    && (forall id :: id in s.notes ==> !ItemCarries(x, s.notes[id]))
    && (forall id :: id in s.pipeline ==> !ItemCarries(x, s.pipeline[id]))
    && (forall id :: id in s.segments ==> !SegmentCarries(x, s.segments[id]))
  }

  /** On a first attempt the report counts exactly the records of each table that changed. */
  lemma FirstReportCountsChanges(x: Input, before: Store, after: Store, r: Summary)
    requires ReportCounts(x, before, after, r) && FirstAttempt(x, before)
    ensures r.links == |Differing(before.links, after.links)| && r.notes == |Differing(before.notes, after.notes)|
    ensures r.pipeline == |Differing(before.pipeline, after.pipeline)|
    ensures r.segments == |Differing(before.segments, after.segments)|
  {
    hide Differing, LinkCarries, ItemCarries, SegmentCarries;
    assert (set id | id in before.links && LinkCarries(x, before.links[id])) == {};
    assert (set id | id in before.notes && ItemCarries(x, before.notes[id])) == {};
    assert (set id | id in before.pipeline && ItemCarries(x, before.pipeline[id])) == {};
    assert (set id | id in before.segments && SegmentCarries(x, before.segments[id])) == {};
  }

  /** Where every affected record is traceable, the report counts the records of each table that carry the merge at its
      end, however many attempts it took. */
  lemma ReportCountsCarriers(x: Input, s: Store)
    requires WellFormed(x) && AllTraceable(x, s)
    ensures var f, r := Finished(x, s), Summarize(x, s);
            && r.links == |set id | id in f.links && LinkCarries(x, f.links[id])|
            && r.notes == |set id | id in f.notes && ItemCarries(x, f.notes[id])|
            && r.pipeline == |set id | id in f.pipeline && ItemCarries(x, f.pipeline[id])|
            && r.segments == |set id | id in f.segments && SegmentCarries(x, f.segments[id])|
  {
    hide LinkTargets, ItemTargets, SegmentTargets, LinkCarries, ItemCarries, SegmentCarries;
    hide RewireLinks, RewireItems, RewireSegments, LinkTraceable, ItemTraceable;
    CarriedLinks(x, s.links);
    CarriedItems(x, s.notes);
    CarriedItems(x, s.pipeline);
    CarriedSegments(x, s.segments);
  }

  lemma CarriedLinks(x: Input, links: map<Id, Link>)
    requires WellFormed(x) && forall id :: id in links ==> LinkTraceable(x, links[id])
    ensures LinkTargets(x, links) ==
            (set id | id in RewireLinks(x, links) && LinkCarries(x, RewireLinks(x, links)[id]))
  {
  }

  lemma CarriedItems(x: Input, items: map<Id, Item>)
    requires WellFormed(x) && forall id :: id in items ==> ItemTraceable(x, items[id])
    ensures ItemTargets(x, items) ==
            (set id | id in RewireItems(x, items) && ItemCarries(x, RewireItems(x, items)[id]))
  {
  }

  lemma CarriedSegments(x: Input, segments: map<Id, Segment>)
    ensures SegmentTargets(x, segments) ==
            (set id | id in RewireSegments(x, segments) && SegmentCarries(x, RewireSegments(x, segments)[id]))
  {
  }

  /** Field by field: a link of a retired contact keeps its event and participant, now spelled out, names the survivor in
      both contact fields, remembers where it came from, and carries the audit id; every other link is untouched. */
  lemma FinishedLinkFields(x: Input, s: Store, id: Id)
    requires id in s.links
    ensures var l, f := s.links[id], Finished(x, s).links[id];
            var contact := if l.crmContactId.Some? then l.crmContactId.value else l.contactId;
            if l.org == x.org && contact in x.retired then
              && f.org == l.org && f.eventId == l.eventId
              && f.participantId == Some(if l.participantId.Some? then l.participantId.value else contact)
              && f.crmContactId == Some(x.survivor) && f.contactId == x.survivor
              && f.source == Some(if l.source.Some? then l.source.value else contact) && f.audit == Some(x.audit)
            else f == l
  {
  }

  /** The same for notes and pipeline entries, which keep their content. */
  lemma FinishedItemFields(x: Input, items: map<Id, Item>, id: Id)
    requires id in items
    ensures var i, f := items[id], RewireItems(x, items)[id];
            if i.org == x.org && i.contactId in x.retired then
              && f.org == i.org && f.content == i.content && f.contactId == x.survivor
              && f.source == Some(if i.source.Some? then i.source.value else i.contactId) && f.audit == Some(x.audit)
            else f == i
  {
  }

  /** A retired contact that is not merged into the survivor under this audit, or a survivor that is not active. */
  ghost predicate ContactMismatch(x: Input, contacts: map<Id, Contact>)
  {
    || x.survivor !in contacts || contacts[x.survivor].org != x.org || contacts[x.survivor].status != Active
    || exists id :: id in x.retired &&
         (id !in contacts || contacts[id].org != x.org || contacts[id].status != Merged
          || contacts[id].mergedInto != Some(x.survivor) || contacts[id].mergeAudit != Some(x.audit))
  }

  /** Two links of one event on the merged contacts that stand for different participants. */
  ghost predicate DistinctParticipants(x: Input, links: map<Id, Link>)
  {
    exists i, j :: i in links && j in links &&
      var a, b := links[i], links[j];
      && a.org == x.org && b.org == x.org && a.eventId == b.eventId
      && var c := if a.crmContactId.Some? then a.crmContactId.value else a.contactId;
      var d := if b.crmContactId.Some? then b.crmContactId.value else b.contactId;
      && (c == x.survivor || c in x.retired) && (d == x.survivor || d in x.retired)
      && (if a.participantId.Some? then a.participantId.value else c) !=
         (if b.participantId.Some? then b.participantId.value else d)
  }

  lemma ChecksMean(x: Input, s: Store)
    ensures ContactsMerged(x, s) <==> !ContactMismatch(x, s.contacts)
    ensures ParticipantConflict(x, s) <==> DistinctParticipants(x, s.links)
  {
  }

  /** A link that this merge rewired earlier and that has since moved to a contact outside the merge. */
  ghost predicate MovedOn(x: Input, links: map<Id, Link>)
  {
    exists id :: id in links && LinkCarries(x, links[id]) &&
      var l := links[id];
      var contact := if l.crmContactId.Some? then l.crmContactId.value else l.contactId;
      contact != x.survivor && contact !in x.retired
  }

  /** What stands in the way of a merge. */
  lemma AdmitsExactly(x: Input, s: Store)
    ensures Admits(x, s) <==>
            && x.retired != {} && x.survivor !in x.retired && (x.org, x.audit) !in s.results
            && !ContactMismatch(x, s.contacts) && !DistinctParticipants(x, s.links) && !MovedOn(x, s.links)
  {
    hide ContactMismatch, DistinctParticipants, ContactsMerged, ParticipantConflict;
    ChecksMean(x, s);
    if MovedOn(x, s.links) {
      var id :| id in s.links && LinkCarries(x, s.links[id]) && Effective(s.links[id]) != x.survivor &&
                Effective(s.links[id]) !in x.retired;
      assert LinkBlocked(x, s.links[id]);
    }
  }

  /** After a merge that was admitted every link that carries it is on the survivor. */
  lemma CarriersAreOnSurvivor(x: Input, s: Store, id: Id)
    requires Admits(x, s) && id in s.links && LinkCarries(x, Finished(x, s).links[id])
    ensures var l := Finished(x, s).links[id]; (if l.crmContactId.Some? then l.crmContactId.value else l.contactId) == x.survivor
  {
    hide ContactsMerged, ParticipantConflict;
    assert !LinkBlocked(x, s.links[id]);
  }
}
