/** The order a briefing is read in, and which items it lists, without the comparison that sorts it. */
module BriefingOrder {
  import opened Basics
  import opened Text
  import opened Briefing

  ghost predicate LateAt(i: Item, now: int)
  {
    i.deadline != None && i.deadline.value.at < now
  }

  ghost predicate SameDeadline(a: Item, b: Item)
  {
    (a.deadline.None? <==> b.deadline.None?) && (a.deadline.Some? && b.deadline.Some? ==> a.deadline.value.at == b.deadline.value.at)
  }

  ghost predicate MoreSevere(a: Severity, b: Severity)
  {
    (a == Critical && (b == High || b == Normal)) || (a == High && b == Normal)
  }

  ghost predicate RanksAbove(a: Role, b: Role)
  {
    (a == Organizer && (b == Reviewer || b == Speaker)) || (a == Reviewer && b == Speaker)
  }

  /** Alike in being overdue, deadline, severity and role. */
  ghost predicate SameUrgency(a: Item, b: Item, now: int)
  {
    (LateAt(a, now) <==> LateAt(b, now)) && SameDeadline(a, b) && a.severity == b.severity && a.role == b.role
  }

  /** `a` may be read before `b`: what is overdue comes first, then what is due and due earlier, then the more severe, then
      organizers before reviewers before speakers, then organizations, events, sources and profiles in text order. */
  ghost predicate MayPrecede(a: Item, b: Item, now: int)
  {
    && (LateAt(b, now) ==> LateAt(a, now))
    && (LateAt(a, now) == LateAt(b, now) && b.deadline.Some? ==>
          a.deadline.Some? && a.deadline.value.at <= b.deadline.value.at)
    && (LateAt(a, now) == LateAt(b, now) && SameDeadline(a, b) ==> !MoreSevere(b.severity, a.severity))
    && (LateAt(a, now) == LateAt(b, now) && SameDeadline(a, b) && a.severity == b.severity ==> !RanksAbove(b.role, a.role))
    && (SameUrgency(a, b, now) ==>
          && !TextBefore(b.organization, a.organization)
          && (a.organization == b.organization ==>
                && !TextBefore(b.event, a.event)
                && (a.event == b.event ==>
                      && !TextBefore(b.source, a.source)
                      && (a.source == b.source ==> !TextBefore(b.profile, a.profile)))))
  }

  lemma ComparedMayPrecede(a: Item, b: Item, now: int)
    ensures Compare(a, b, now) <= 0 <==> MayPrecede(a, b, now)
  {
    hide TextBefore;
    TextIsOrdered(a.organization, b.organization, "");
    TextIsOrdered(a.event, b.event, "");
    TextIsOrdered(a.source, b.source, "");
    TextIsOrdered(a.profile, b.profile, "");
  }

  /** Every two items of a briefing stand in that order. */
  lemma ListedInOrder(listed: seq<Item>, items: seq<Item>, now: int, i: nat, j: nat)
    requires IsBriefing(listed, items, now) && i < j < |listed|
    ensures MayPrecede(listed[i], listed[j], now)
  {
    hide Compare, MayPrecede, Firsts;
    ComparedMayPrecede(listed[i], listed[j], now);
  }

  /** No item before place `k` has its key. */
  ghost predicate FirstAt(items: seq<Item>, k: nat)
  {
    k < |items| && !HasKey(items[..k], Key(items[k]))
  }

  /** A briefing lists, once each, exactly the items that no earlier item of the same key precedes. */
  lemma ListsFirsts(listed: seq<Item>, items: seq<Item>, now: int, x: Item)
    requires IsBriefing(listed, items, now)
    ensures x in listed <==> exists k: nat :: FirstAt(items, k) && items[k] == x
    ensures forall i, j :: 0 <= i < j < |listed| ==> Key(listed[i]) != Key(listed[j])
  {
    hide Compare, Key, Firsts, IsSorted;
    FirstsKeepKeys(items);
    FirstsAreFirst(items, x);
    assert x in listed <==> x in multiset(listed) <==> x in multiset(Firsts(items)) <==> x in Firsts(items);
    forall i, j | 0 <= i < j < |listed| ensures Key(listed[i]) != Key(listed[j]) {
      KeysStayApart(Firsts(items), listed, i, j);
    }
  }

  ghost predicate IsFirst(items: seq<Item>, x: Item)
  {
    exists k: nat :: FirstAt(items, k) && items[k] == x
  }

  lemma FirstOfSnoc(init: seq<Item>, last: Item, x: Item)
    ensures IsFirst(init + [last], x) <==> IsFirst(init, x) || (x == last && !HasKey(init, Key(last)))
  {
    hide Key, HasKey;
    var items := init + [last];
    assert items[..|init|] == init;
    forall k: nat | k < |init| ensures FirstAt(items, k) <==> FirstAt(init, k) {
      assert items[..k] == init[..k];
    }
    if k: nat :| FirstAt(init, k) && init[k] == x {
      assert FirstAt(items, k) && items[k] == x;
    }
    if x == last && !HasKey(init, Key(last)) {
      assert FirstAt(items, |init|) && items[|init|] == x;
    }
  }

  lemma {:induction false} FirstsAreFirst(items: seq<Item>, x: Item)
    ensures x in Firsts(items) <==> IsFirst(items, x)
  {
    hide Key, IsFirst, HasKey;
    if items == [] {
      NoneIsFirst(x);
    } else {
      var n := |items| - 1;
      assert items == items[..n] + [items[n]];
      FirstsAreFirst(items[..n], x);
      FirstOfSnoc(items[..n], items[n], x);
    }
  }

  lemma NoneIsFirst(x: Item)
    ensures !IsFirst([], x)
  {
  }
}
