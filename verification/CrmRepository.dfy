/** The reconciliation as the repository runs it: checks, then one record update after another. `budget` bounds the
    number of updates before the process stops, so that every call covers every possible interruption. */
module CrmRepository {
  import opened Basics
  import opened CrmRules
  import opened CrmMerge
  import opened CrmReport

  datatype Outcome = Conflict | Interrupted | Reported(summary: Summary)

  predicate InScope(x: Input, l: Link)
  {
    l.org == x.org && Effective(l) in x.retired + {x.survivor}
  }

  lemma TwoElements<T>(s: set<T>, a: T, b: T)
    requires a in s && b in s && a != b
    ensures |s| >= 2
  {
    assert s == {a, b} + (s - {a, b});
  }

  lemma SecondElement<T>(s: set<T>) returns (a: T, b: T)
    requires |s| >= 2
    ensures a in s && b in s && a != b
  {
    a :| a in s;
    assert |s - {a}| >= 1;
    b :| b in s - {a};
  }

  /** Some link in scope, outside `skipped`, puts participant `p` in event `e`. */
  ghost predicate Linked(x: Input, links: map<Id, Link>, skipped: set<Id>, e: Id, p: Id)
  {
    exists id :: id in links && id !in skipped && Places(x, links[id], e, p)
  }

  predicate Places(x: Input, l: Link, e: Id, p: Id)
  {
    InScope(x, l) && l.eventId == e && Participant(l) == p
  }

  lemma LinkedStep(x: Input, links: map<Id, Link>, skipped: set<Id>, id: Id, e: Id, p: Id)
    requires id in links && id in skipped
    ensures Linked(x, links, skipped - {id}, e, p) <==> Linked(x, links, skipped, e, p) || Places(x, links[id], e, p)
  {
    if Linked(x, links, skipped, e, p) {
      var i :| i in links && i !in skipped && Places(x, links[i], e, p);
      assert i !in skipped - {id};
    }
    if Places(x, links[id], e, p) {
      assert id !in skipped - {id};
    }
    if Linked(x, links, skipped - {id}, e, p) {
      var i :| i in links && i !in skipped - {id} && Places(x, links[i], e, p);
      assert i == id || i !in skipped;
    }
  }

  predicate Listed(byEvent: map<Id, set<Id>>, e: Id, p: Id)
  {
    e in byEvent && p in byEvent[e]
  }

  /** The participants of each event that the merged contacts are linked to. */
  method ParticipantsByEvent(x: Input, links: map<Id, Link>) returns (byEvent: map<Id, set<Id>>)
    ensures forall e, p :: Listed(byEvent, e, p) <==> Linked(x, links, {}, e, p)
  {
    byEvent := map[];
    var remaining := links.Keys;
    while remaining != {}
      invariant remaining <= links.Keys
      invariant forall e, p :: Listed(byEvent, e, p) <==> Linked(x, links, remaining, e, p)
      decreases |remaining|
    {
      var id :| id in remaining;
      var l := links[id];
      ghost var before := byEvent;
      if InScope(x, l) {
        byEvent := byEvent[l.eventId := (if l.eventId in byEvent then byEvent[l.eventId] else {}) + {Participant(l)}];
      }
      forall e, p ensures Listed(byEvent, e, p) <==> Linked(x, links, remaining - {id}, e, p) {
        hide Linked;
        LinkedStep(x, links, remaining, id, e, p);
        assert Listed(byEvent, e, p) <==> Listed(before, e, p) || Places(x, l, e, p);
      }
      remaining := remaining - {id};
    }
  }

  /** The participants that clash in an event, and the merged contacts linked to it. */
  datatype EventConflict = EventConflict(participants: set<Id>, contacts: set<Id>)

  ghost predicate ClashIn(x: Input, links: map<Id, Link>, e: Id)
  {
    exists i, j :: i in links && j in links && Clash(x, links[i], links[j]) && links[i].eventId == e
  }

  /** Reports exactly the events in which two links clash, each with its linked participants and contacts. */
  method ParticipantConflicts(x: Input, links: map<Id, Link>) returns (conflicts: map<Id, EventConflict>)
    ensures forall e :: e in conflicts <==> ClashIn(x, links, e)
    ensures forall e, p :: e in conflicts ==> (p in conflicts[e].participants <==> Linked(x, links, {}, e, p))
    ensures forall e, c :: e in conflicts ==>
              (c in conflicts[e].contacts <==>
               exists id :: id in links && InScope(x, links[id]) && links[id].eventId == e && Effective(links[id]) == c)
  {
    hide InScope;
    var byEvent := ParticipantsByEvent(x, links);
    conflicts := map e | e in byEvent && |byEvent[e]| >= 2 ::
      EventConflict(byEvent[e], set id | id in links && InScope(x, links[id]) && links[id].eventId == e :: Effective(links[id]));
    forall e ensures e in conflicts <==> ClashIn(x, links, e) {
      ConflictsInEvent(x, links, byEvent, e);
    }
    forall e, p | e in conflicts ensures p in conflicts[e].participants <==> Linked(x, links, {}, e, p) {
      assert p in conflicts[e].participants <==> Listed(byEvent, e, p);
    }
  }

  lemma ConflictsInEvent(x: Input, links: map<Id, Link>, byEvent: map<Id, set<Id>>, e: Id)
    requires forall e, p :: Listed(byEvent, e, p) <==> Linked(x, links, {}, e, p)
    ensures e in byEvent && |byEvent[e]| >= 2 <==> ClashIn(x, links, e)
  {
    if e in byEvent && |byEvent[e]| >= 2 {
      var p, q := SecondElement(byEvent[e]);
      assert Listed(byEvent, e, p) && Listed(byEvent, e, q);
      var i :| i in links && Places(x, links[i], e, p);
      var j :| j in links && Places(x, links[j], e, q);
      assert Clash(x, links[i], links[j]);
    }
    if ClashIn(x, links, e) {
      var i, j :| i in links && j in links && Clash(x, links[i], links[j]) && links[i].eventId == e;
      var p, q := Participant(links[i]), Participant(links[j]);
      assert Places(x, links[i], e, p) && Places(x, links[j], e, q);
      assert Linked(x, links, {}, e, p) && Linked(x, links, {}, e, q);
      assert Listed(byEvent, e, p) && Listed(byEvent, e, q);
      TwoElements(byEvent[e], p, q);
    }
  }

  method FindsParticipantConflict(x: Input, s: Store) returns (conflict: bool)
    ensures conflict <==> ParticipantConflict(x, s)
  {
    hide Clash;
    var conflicts := ParticipantConflicts(x, s.links);
    conflict := conflicts.Keys != {};
    if conflict {
      ghost var e :| e in conflicts;
      assert ClashIn(x, s.links, e);
    } else {
      forall i, j | i in s.links && j in s.links ensures !Clash(x, s.links[i], s.links[j]) {
        assert !ClashIn(x, s.links, s.links[i].eventId);
      }
    }
  }

  /** Rewires the targeted notes or pipeline entries until done or out of budget. */
  method RewireItemRecords(x: Input, items: map<Id, Item>, budget: nat)
    returns (after: map<Id, Item>, left: nat, done: bool)
    requires WellFormed(x)
    ensures PartialItems(x, items, after)
    ensures done ==> after == RewireItems(x, items) && left + |ItemTargets(x, items)| >= budget
    ensures !done ==> budget < |ItemTargets(x, items)|
  {
    after, left, done := items, budget, true;
    var remaining := ItemTargets(x, items);
    while remaining != {}
      invariant remaining <= ItemTargets(x, items) && after.Keys == items.Keys
      invariant forall id :: id in remaining ==> after[id] == items[id]
      invariant forall id :: id in items && id !in remaining ==> after[id] == RewireItem(x, items[id])
      invariant left + |ItemTargets(x, items)| >= budget + |remaining| && left <= budget
      decreases |remaining|
    {
      var id :| id in remaining;
      var stored := after[id];
      if !(stored.contactId == x.survivor && stored.audit == Some(x.audit)) {
        if left == 0 {
          done := false;
          return;
        }
        left := left - 1;
        after := after[id := stored.(contactId := x.survivor, source := SourceOr(stored.source, stored.contactId),
                                     audit := Some(x.audit))];
      }
      remaining := remaining - {id};
    }
  }

  class Repository {
    var contacts: map<Id, Contact>
    var links: map<Id, Link>
    var notes: map<Id, Item>
    var pipeline: map<Id, Item>
    var segments: map<Id, Segment>
    var results: map<(Id, Id), Summary>

    function State(): Store
      reads this
    {
      Store(contacts, links, notes, pipeline, segments, results)
    }

    method RewireLinks(x: Input, budget: nat) returns (left: nat, outcome: Outcome)
      requires WellFormed(x)
      modifies `links
      ensures PartialLinks(x, old(links), links)
      ensures outcome.Reported? ==>
                && links == CrmMerge.RewireLinks(x, old(links))
                && (forall id :: id in old(links) ==> !LinkBlocked(x, old(links)[id]))
                && left + |old(LinkTargets(x, links))| >= budget
      ensures outcome == Conflict ==> exists id :: id in old(links) && LinkBlocked(x, old(links)[id])
      ensures outcome == Interrupted ==> budget < |old(LinkTargets(x, links))|
    {
      left, outcome := budget, Reported(Summary(x.survivor, x.retired, 0, 0, 0, 0));
      var remaining := LinkTargets(x, links);
      while remaining != {}
        invariant remaining <= old(LinkTargets(x, links)) && links.Keys == old(links.Keys)
        invariant forall id :: id in remaining ==> links[id] == old(links)[id]
        invariant forall id :: id in links && id !in remaining ==>
                    links[id] == RewireLink(x, old(links)[id]) && !LinkBlocked(x, old(links)[id])
        invariant left + |old(LinkTargets(x, links))| >= budget + |remaining| && left <= budget
        decreases |remaining|
      {
        var id :| id in remaining;
        var stored := links[id];
        var contact := Effective(stored);
        if !(contact == x.survivor && FromRetired(stored.source, stored.audit, x)) {
          if contact !in x.retired {
            outcome := Conflict;
            return;
          }
          if left == 0 {
            outcome := Interrupted;
            return;
          }
          left := left - 1;
          links := links[id := Link(stored.org, stored.eventId, Some(Participant(stored)), Some(x.survivor),
                                    x.survivor, SourceOr(stored.source, contact), Some(x.audit))];
        }
        remaining := remaining - {id};
      }
    }

    method RewireSegments(x: Input, budget: nat) returns (left: nat, done: bool)
      requires WellFormed(x)
      modifies `segments
      ensures PartialSegments(x, old(segments), segments)
      ensures done ==>
                && segments == CrmMerge.RewireSegments(x, old(segments))
                && left + |old(SegmentTargets(x, segments))| >= budget
      ensures !done ==> budget < |old(SegmentTargets(x, segments))|
    {
      hide WithAudit, Replace, WellFormed;
      left, done := budget, true;
      var remaining := SegmentTargets(x, segments);
      while remaining != {}
        invariant remaining <= old(SegmentTargets(x, segments)) && segments.Keys == old(segments.Keys)
        invariant forall id :: id in remaining ==> segments[id] == old(segments)[id]
        invariant forall id :: id in segments && id !in remaining ==>
                    segments[id] == RewireSegment(x, old(segments)[id])
        invariant left + |old(SegmentTargets(x, segments))| >= budget + |remaining| && left <= budget
        decreases |remaining|
      {
        var id :| id in remaining;
        var stored := segments[id];
        if x.audit !in stored.audits {
          if left == 0 {
            done := false;
            return;
          }
          left := left - 1;
          var replaced := Replace(stored.rules, x.retired, x.survivor);
          segments := segments[id := stored.(rules := replaced.value, audits := WithAudit(stored.audits, x.audit),
                                             version := stored.version + 1)];
        }
        remaining := remaining - {id};
      }
    }

    method RewireHistory(x: Input, budget: nat) returns (left: nat, done: bool)
      requires WellFormed(x)
      modifies `notes, `pipeline
      ensures PartialItems(x, old(notes), notes) && PartialItems(x, old(pipeline), pipeline)
      ensures done ==> notes == RewireItems(x, old(notes)) && pipeline == RewireItems(x, old(pipeline))
      ensures done ==> left + |old(ItemTargets(x, notes))| + |old(ItemTargets(x, pipeline))| >= budget
      ensures !done ==> budget < |old(ItemTargets(x, notes))| + |old(ItemTargets(x, pipeline))|
    {
      hide ItemTargets, PartialItems, RewireItems;
      NoItemIsPartial(x, pipeline);
      notes, left, done := RewireItemRecords(x, notes, budget);
      if done {
        pipeline, left, done := RewireItemRecords(x, pipeline, left);
      }
    }

    method RewireAll(x: Input, budget: nat) returns (left: nat, outcome: Outcome)
      requires WellFormed(x)
      modifies `links, `notes, `pipeline, `segments
      ensures Partial(x, old(State()), State())
      ensures outcome.Reported? ==>
                && State() == Rewired(x, old(State()))
                && (forall id :: id in old(links) ==> !LinkBlocked(x, old(links)[id]))
                && left + old(Updates(x, State())) >= budget
      ensures outcome == Conflict ==> exists id :: id in old(links) && LinkBlocked(x, old(links)[id])
      ensures outcome == Interrupted ==> budget < old(Updates(x, State()))
    {
      hide LinkBlocked, LinkTargets, ItemTargets, SegmentTargets;
      hide PartialLinks, PartialItems, PartialSegments, CrmMerge.RewireLinks, RewireItems, CrmMerge.RewireSegments;
      hide RewireLink, RewireItem, RewireSegment, LinkTarget, ItemTarget, SegmentTarget, WellFormed;
      NothingIsPartial(x, State());
      left, outcome := RewireLinks(x, budget);
      assert Partial(x, old(State()), State());
      if outcome.Reported? {
        var done;
        left, done := RewireHistory(x, left);
        if done {
          left, done := RewireSegments(x, left);
        }
        outcome := if done then outcome else Interrupted;
      }
    }

    /** Nothing is written before every check has passed. From then on an interrupted or conflicting call leaves some
        of the targeted records rewired and the rest as they were; a call that reports has rewired them all; and a
        call whose budget covers every update and the saved result reports unless some check fails. One that ends
        between the last update and the saved result has rewired everything. */
    method ReconcileContactMerge(x: Input, budget: nat) returns (outcome: Outcome)
      modifies this
      ensures WellFormed(x) && (x.org, x.audit) in old(results) ==>
                && State() == old(State())
                && var prior := old(results)[(x.org, x.audit)];
                   outcome == if prior.survivor == x.survivor && prior.retired == x.retired then Reported(prior)
                              else Conflict
      ensures outcome.Reported? && (x.org, x.audit) !in old(results) ==>
                && old(Admits(x, State()))
                && outcome.summary == old(Summarize(x, State()))
                && State() == Finished(x, old(State()))
                && ReportCounts(x, old(State()), State(), outcome.summary)
      ensures WellFormed(x) && (x.org, x.audit) !in old(results) &&
              (ContactMismatch(x, old(contacts)) || DistinctParticipants(x, old(links))) ==>
                outcome == Conflict && State() == old(State())
      ensures WellFormed(x) && !outcome.Reported? ==> Partial(x, old(State()), State())
      ensures !WellFormed(x) ==> outcome == Conflict && State() == old(State())
      ensures old(Admits(x, State())) ==> outcome != Conflict
      ensures old(Admits(x, State())) && budget > old(Updates(x, State())) ==> outcome.Reported?
      ensures old(Admits(x, State())) && budget == old(Updates(x, State())) && outcome == Interrupted ==>
                State() == Rewired(x, old(State()))
    {
      hide ContactsMerged, ParticipantConflict, LinkBlocked, RewireLink, RewireItem, RewireSegment, Updates;
      hide ReportCounts, ContactMismatch, DistinctParticipants;
      if x.retired == {} || x.survivor in x.retired {
        return Conflict;
      }
      if (x.org, x.audit) in results {
        var prior := results[(x.org, x.audit)];
        return if prior.survivor == x.survivor && prior.retired == x.retired then Reported(prior) else Conflict;
      }
      ChecksMean(x, State());
      if !ContactsMerged(x, State()) {
        return Conflict;
      }
      var clash := FindsParticipantConflict(x, State());
      if clash {
        return Conflict;
      }
      var summary := Summarize(x, State());
      MergeReportCounts(x, State());
      var left, progress := RewireAll(x, budget);
      if !progress.Reported? {
        return progress;
      }
      if left == 0 {
        return Interrupted;
      }
      results := results[(x.org, x.audit) := summary];
      outcome := Reported(summary);
    }
  }

  lemma NoItemIsPartial(x: Input, items: map<Id, Item>)
    ensures PartialItems(x, items, items)
  {
  }

  lemma NothingIsPartial(x: Input, s: Store)
    ensures PartialLinks(x, s.links, s.links) && PartialSegments(x, s.segments, s.segments)
    ensures PartialItems(x, s.notes, s.notes) && PartialItems(x, s.pipeline, s.pipeline)
  {
  }

  /** The record updates of an uninterrupted reconciliation. */
  function Updates(x: Input, s: Store): nat
  {
    |LinkTargets(x, s.links)| + |ItemTargets(x, s.notes)| + |ItemTargets(x, s.pipeline)| + |SegmentTargets(x, s.segments)|
  }
}
