/** The aggregate briefing: items of all sources, the first of each key kept, in one canonical order. */
module Briefing {
  import opened Basics
  import opened Text
  import opened Ascending
  import opened Concurrent

  /** The text of a deadline and the instant it parses to. */
  datatype Deadline = Deadline(text: string, at: int)

  datatype Severity = Critical | High | Normal
  datatype Role = Organizer | Reviewer | Speaker

  /** `event` is the empty string for an item without an event, as the keys below read it; `details` is the rest. */
  datatype Item = Item(
    profile: string, organization: string, event: string, role: Role, source: string,
    deadline: Option<Deadline>, severity: Severity, details: string)

  // ---------------------------------------------------------------------------------------------
  // The order of items
  // ---------------------------------------------------------------------------------------------

  function CompareText(a: string, b: string): int
  {
    if TextBefore(a, b) then -1 else if TextBefore(b, a) then 1 else 0
  }

  function SeverityRank(s: Severity): int
  {
    match s case Critical => 0 case High => 1 case Normal => 2
  }

  function RoleRank(r: Role): int
  {
    match r case Organizer => 0 case Reviewer => 1 case Speaker => 2
  }

  function RoleText(r: Role): string
  {
    match r case Organizer => "organizer" case Reviewer => "reviewer" case Speaker => "speaker"
  }

  predicate IsOverdue(i: Item, now: int)
  {
    i.deadline.Some? && i.deadline.value.at < now
  }

  /** Negative, zero or positive: overdue first, then by deadline, severity, role, organization, event, source, profile. */
  function Compare(a: Item, b: Item, now: int): int
  {
    if IsOverdue(a, now) != IsOverdue(b, now) then (if IsOverdue(a, now) then -1 else 1)
    else if CompareDeadlines(a, b) != 0 then CompareDeadlines(a, b)
    else if SeverityRank(a.severity) != SeverityRank(b.severity) then SeverityRank(a.severity) - SeverityRank(b.severity)
    else if RoleRank(a.role) != RoleRank(b.role) then RoleRank(a.role) - RoleRank(b.role)
    else if CompareText(a.organization, b.organization) != 0 then CompareText(a.organization, b.organization)
    else if CompareText(a.event, b.event) != 0 then CompareText(a.event, b.event)
    else if CompareText(a.source, b.source) != 0 then CompareText(a.source, b.source)
    else CompareText(a.profile, b.profile)
  }

  function CompareDeadlines(a: Item, b: Item): int
  {
    if a.deadline == b.deadline then 0
    else if a.deadline.None? then 1
    else if b.deadline.None? then -1
    else a.deadline.value.at - b.deadline.value.at
  }

  type Comparison = (Item, Item) -> int

  /** Signs of three comparisons of three items, and of one back. */
  ghost predicate Coherent(ab: int, ba: int, bc: int, ac: int)
  {
    && (ab < 0 <==> ba > 0) && (ab == 0 <==> ba == 0)
    && (ab <= 0 && bc <= 0 ==> ac <= 0)
    && (ab <= 0 && bc <= 0 && ac == 0 ==> ab == 0 && bc == 0)
    && (ab == 0 && bc == 0 ==> ac == 0)
  }

  /** A comparison that orders items, ties included. */
  ghost predicate IsOrder(c: Comparison)
  {
    forall x, y, z :: Coherent(c(x, y), c(y, x), c(y, z), c(x, z))
  }

  /** By the first comparison, and where it ties by the second. */
  function Then(c: Comparison, d: Comparison): Comparison
  {
    (a: Item, b: Item) => if c(a, b) != 0 then c(a, b) else d(a, b)
  }

  function ByRank(rank: Item -> int): Comparison
  {
    (a: Item, b: Item) => rank(a) - rank(b)
  }

  function ByText(text: Item -> string): Comparison
  {
    (a: Item, b: Item) => CompareText(text(a), text(b))
  }

  lemma ThenIsOrder(c: Comparison, d: Comparison)
    requires IsOrder(c) && IsOrder(d)
    ensures IsOrder(Then(c, d))
  {
    var e := Then(c, d);
    forall x, y, z ensures Coherent(e(x, y), e(y, x), e(y, z), e(x, z)) {
      assert Coherent(c(x, y), c(y, x), c(y, z), c(x, z));
      assert Coherent(d(x, y), d(y, x), d(y, z), d(x, z));
    }
  }

  lemma ByRankIsOrder(rank: Item -> int)
    ensures IsOrder(ByRank(rank))
  {
  }

  lemma ByTextIsOrder(text: Item -> string)
    ensures IsOrder(ByText(text))
  {
    var c := ByText(text);
    forall x, y, z ensures Coherent(c(x, y), c(y, x), c(y, z), c(x, z)) {
      TextIsOrdered(text(x), text(y), text(z));
      TextIsOrdered(text(y), text(x), text(z));
      TextIsOrdered(text(y), text(z), text(x));
      TextIsOrdered(text(x), text(z), text(y));
    }
  }

  lemma ByDeadlineIsOrder()
    ensures IsOrder(CompareDeadlines)
  {
  }

  function Overdue(now: int): Item -> int
  {
    (i: Item) => if IsOverdue(i, now) then 0 else 1
  }

  function IdentityOrder(): Comparison
  {
    Then(ByText((i: Item) => i.organization),
         Then(ByText((i: Item) => i.event), Then(ByText((i: Item) => i.source), ByText((i: Item) => i.profile))))
  }

  function Order(now: int): Comparison
  {
    Then(ByRank(Overdue(now)),
         Then(CompareDeadlines,
              Then(ByRank((i: Item) => SeverityRank(i.severity)),
                   Then(ByRank((i: Item) => RoleRank(i.role)), IdentityOrder()))))
  }

  lemma IdentityIsOrder()
    ensures IsOrder(IdentityOrder())
  {
    hide IsOrder, Then, ByText;
    var org, event := ByText((i: Item) => i.organization), ByText((i: Item) => i.event);
    var source, profile := ByText((i: Item) => i.source), ByText((i: Item) => i.profile);
    ByTextIsOrder((i: Item) => i.organization);
    ByTextIsOrder((i: Item) => i.event);
    ByTextIsOrder((i: Item) => i.source);
    ByTextIsOrder((i: Item) => i.profile);
    ThenIsOrder(source, profile);
    ThenIsOrder(event, Then(source, profile));
    ThenIsOrder(org, Then(event, Then(source, profile)));
  }

  lemma OrderIsOrder(now: int)
    ensures IsOrder(Order(now))
  {
    hide IsOrder, Then, ByRank, IdentityOrder, CompareDeadlines;
    var severity, role := ByRank((i: Item) => SeverityRank(i.severity)), ByRank((i: Item) => RoleRank(i.role));
    ByRankIsOrder(Overdue(now));
    ByRankIsOrder((i: Item) => SeverityRank(i.severity));
    ByRankIsOrder((i: Item) => RoleRank(i.role));
    ByDeadlineIsOrder();
    IdentityIsOrder();
    ThenIsOrder(role, IdentityOrder());
    ThenIsOrder(severity, Then(role, IdentityOrder()));
    ThenIsOrder(CompareDeadlines, Then(severity, Then(role, IdentityOrder())));
    ThenIsOrder(ByRank(Overdue(now)), Then(CompareDeadlines, Then(severity, Then(role, IdentityOrder()))));
  }

  /** The comparison is that order. */
  lemma CompareIsOrder(a: Item, b: Item, now: int)
    ensures Compare(a, b, now) == Order(now)(a, b)
  {
    hide CompareText, CompareDeadlines;
  }

  // ---------------------------------------------------------------------------------------------
  // Keys
  // ---------------------------------------------------------------------------------------------

  const NUL: char := '\0'

  /** The text items are deduplicated by. */
  function Key(i: Item): string
  {
    Joined(i.profile, NUL, Joined(i.organization, NUL, Joined(i.event, NUL, Joined(RoleText(i.role), NUL, i.source))))
  }

  /** Names, ids and sources hold no NUL character. */
  predicate Clean(i: Item)
  {
    NUL !in i.profile && NUL !in i.organization && NUL !in i.event
  }

  lemma RoleTexts(a: Role, b: Role)
    ensures NUL !in RoleText(a)
    ensures RoleText(a) == RoleText(b) ==> a == b
  {
    assert RoleText(a)[0] == match a case Organizer => 'o' case Reviewer => 'r' case Speaker => 's';
    assert RoleText(b)[0] == match b case Organizer => 'o' case Reviewer => 'r' case Speaker => 's';
  }

  /** Items of one key agree in every part of the key. */
  lemma KeysTellApart(a: Item, b: Item)
    requires Clean(a) && Clean(b)
    ensures Key(a) == Key(b) <==>
            a.profile == b.profile && a.organization == b.organization && a.event == b.event && a.role == b.role &&
            a.source == b.source
  {
    hide Joined, RoleText;
    if Key(a) == Key(b) {
      RoleTexts(a.role, b.role);
      RoleTexts(b.role, a.role);
      var fromRoleA, fromRoleB := Joined(RoleText(a.role), NUL, a.source), Joined(RoleText(b.role), NUL, b.source);
      var fromEventA, fromEventB := Joined(a.event, NUL, fromRoleA), Joined(b.event, NUL, fromRoleB);
      JoinedSplits(a.profile, Joined(a.organization, NUL, fromEventA), b.profile, Joined(b.organization, NUL, fromEventB), NUL);
      JoinedSplits(a.organization, fromEventA, b.organization, fromEventB, NUL);
      JoinedSplits(a.event, fromRoleA, b.event, fromRoleB, NUL);
      JoinedSplits(RoleText(a.role), a.source, RoleText(b.role), b.source, NUL);
    }
  }

  /** Only items of one key tie. */
  lemma TiesShareKeys(a: Item, b: Item, now: int)
    requires Compare(a, b, now) == 0
    ensures Key(a) == Key(b)
  {
    hide IsOverdue, CompareDeadlines, Joined, RoleText;
    TextIsOrdered(a.organization, b.organization, "");
    TextIsOrdered(a.event, b.event, "");
    TextIsOrdered(a.source, b.source, "");
    TextIsOrdered(a.profile, b.profile, "");
  }

  // ---------------------------------------------------------------------------------------------
  // Deduplication
  // ---------------------------------------------------------------------------------------------

  predicate HasKey(items: seq<Item>, key: string)
  {
    exists i :: 0 <= i < |items| && Key(items[i]) == key
  }

  /** The items that are the first with their key. */
  function Firsts(items: seq<Item>): seq<Item>
  {
    if items == [] then []
    else
      var init, x := items[..|items| - 1], items[|items| - 1];
      if HasKey(init, Key(x)) then Firsts(init) else Firsts(init) + [x]
  }

  method Deduplicate(items: seq<Item>) returns (result: seq<Item>)
    ensures result == Firsts(items)
  {
    hide Key;
    result := [];
    var seen: set<string> := {};
    for i := 0 to |items|
      invariant result == Firsts(items[..i])
      invariant forall key :: key in seen <==> HasKey(items[..i], key)
    {
      assert items[..i + 1][..i] == items[..i];
      KeysOfSnoc(items[..i], items[i]);
      assert items[..i + 1] == items[..i] + [items[i]];
      if Key(items[i]) !in seen {
        seen := seen + {Key(items[i])};
        result := result + [items[i]];
      }
    }
    assert items[..|items|] == items;
  }

  lemma KeysOfSnoc(init: seq<Item>, x: Item)
    ensures forall key :: HasKey(init + [x], key) <==> HasKey(init, key) || key == Key(x)
  {
    hide Key;
    var items := init + [x];
    forall key | HasKey(init, key) || key == Key(x) ensures HasKey(items, key) {
      if key == Key(x) {
        assert Key(items[|init|]) == key;
      } else {
        var j :| 0 <= j < |init| && Key(init[j]) == key;
        assert Key(items[j]) == key;
      }
    }
  }

  lemma {:induction false} FirstsAreItems(items: seq<Item>, x: Item)
    requires x in Firsts(items)
    ensures x in items
  {
    hide Key;
    var init, last := items[..|items| - 1], items[|items| - 1];
    assert items == init + [last];
    if x in Firsts(init) {
      FirstsAreItems(init, x);
    }
  }

  /** Deduplication keeps every key of the list, each once. */
  lemma {:induction false} FirstsKeepKeys(items: seq<Item>)
    ensures forall key :: HasKey(Firsts(items), key) <==> HasKey(items, key)
    ensures forall i, j :: 0 <= i < j < |Firsts(items)| ==> Key(Firsts(items)[i]) != Key(Firsts(items)[j])
  {
    hide Key;
    if items != [] {
      var n := |items| - 1;
      var init, x := items[..n], items[n];
      FirstsKeepKeys(init);
      KeysOfSnoc(init, x);
      KeysOfSnoc(Firsts(init), x);
      assert items == init + [x];
      forall i | 0 <= i < |Firsts(init)| ensures HasKey(init, Key(Firsts(init)[i])) {
        assert HasKey(Firsts(init), Key(Firsts(init)[i]));
      }
    }
  }

  // ---------------------------------------------------------------------------------------------
  // The canonical list
  // ---------------------------------------------------------------------------------------------

  ghost predicate IsSorted(items: seq<Item>, now: int)
  {
    forall i, j :: 0 <= i < j < |items| ==> Compare(items[i], items[j], now) <= 0
  }

  /** What the briefing lists: the deduplicated items, sorted. */
  ghost predicate IsBriefing(listed: seq<Item>, items: seq<Item>, now: int)
  {
    multiset(listed) == multiset(Firsts(items)) && IsSorted(listed, now)
  }

  function Precedes(now: int): (Item, Item) -> bool
  {
    (a: Item, b: Item) => Compare(a, b, now) < 0
  }

  lemma PrecedesIsStrict(now: int)
    ensures IsStrictOrder(Precedes(now))
  {
    hide Compare, Order;
    OrderIsOrder(now);
    var c := Order(now);
    forall a: Item, b: Item ensures Compare(a, b, now) == c(a, b) {
      CompareIsOrder(a, b, now);
    }
    forall a: Item ensures !Precedes(now)(a, a) {
      assert Coherent(c(a, a), c(a, a), c(a, a), c(a, a));
    }
    forall a, b, d | Precedes(now)(a, b) && Precedes(now)(b, d) ensures Precedes(now)(a, d) {
      assert Coherent(c(a, b), c(b, a), c(b, d), c(a, d));
    }
  }

  /** Different items of a briefing never tie. */
  lemma BriefingIsAscending(listed: seq<Item>, items: seq<Item>, now: int)
    requires IsBriefing(listed, items, now)
    ensures IsAscending(Precedes(now), listed)
  {
    hide Compare, Key, Firsts;
    var firsts := Firsts(items);
    FirstsKeepKeys(items);
    forall i, j | 0 <= i < j < |listed| ensures Compare(listed[i], listed[j], now) < 0 {
      if Compare(listed[i], listed[j], now) == 0 {
        TiesShareKeys(listed[i], listed[j], now);
        KeysStayApart(firsts, listed, i, j);
      }
    }
  }

  lemma KeysStayApart(firsts: seq<Item>, listed: seq<Item>, i: nat, j: nat)
    requires multiset(listed) == multiset(firsts) && i < j < |listed|
    requires forall a, b :: 0 <= a < b < |firsts| ==> Key(firsts[a]) != Key(firsts[b])
    ensures Key(listed[i]) != Key(listed[j])
  {
    hide Key;
    var x, y := listed[i], listed[j];
    assert x in multiset(listed) && y in multiset(listed);
    ListedOnce(firsts, x);
    ListedTwice(listed, i, j);
    assert x != y;
    var a :| 0 <= a < |firsts| && firsts[a] == x;
    var b :| 0 <= b < |firsts| && firsts[b] == y;
  }

  lemma {:induction false} ListedOnce(items: seq<Item>, x: Item)
    requires forall a, b :: 0 <= a < b < |items| ==> Key(items[a]) != Key(items[b])
    ensures multiset(items)[x] <= 1
  {
    hide Key;
    if items != [] {
      var n := |items| - 1;
      ListedOnce(items[..n], x);
      assert items == items[..n] + [items[n]];
      assert items[n] !in items[..n];
    }
  }

  lemma ListedTwice(items: seq<Item>, i: nat, j: nat)
    requires i < j < |items|
    ensures items[i] == items[j] ==> multiset(items)[items[i]] >= 2
  {
    assert items == items[..j] + [items[j]] + items[j + 1..];
    assert items[..j][i] == items[i];
    assert items[i] in multiset(items[..j]);
  }

  /** Items of one key are equal. */
  ghost predicate KeysIdentify(items: seq<Item>)
  {
    forall x, y :: x in items && y in items && Key(x) == Key(y) ==> x == y
  }

  /** The briefing is canonical: it depends only on the set of items collected, not on their order or repetition, as long
      as items of one key are equal. */
  lemma BriefingIsCanonical(listed: seq<Item>, items: seq<Item>, others: seq<Item>, again: seq<Item>, now: int)
    requires IsBriefing(listed, items, now) && IsBriefing(again, others, now)
    requires forall x :: x in items <==> x in others
    requires KeysIdentify(items)
    ensures listed == again
  {
    hide Compare, Key, Firsts;
    PrecedesIsStrict(now);
    BriefingIsAscending(listed, items, now);
    BriefingIsAscending(again, others, now);
    forall x ensures x in listed <==> x in items {
      ListedAreItems(listed, items, now, x);
    }
    forall x ensures x in again <==> x in others {
      ListedAreItems(again, others, now, x);
    }
    AscendingIsUnique(Precedes(now), listed, again);
  }

  lemma ListedAreItems(listed: seq<Item>, items: seq<Item>, now: int, x: Item)
    requires IsBriefing(listed, items, now)
    requires KeysIdentify(items)
    ensures x in listed <==> x in items
  {
    hide Key, Firsts, Compare;
    FirstsKeepKeys(items);
    assert x in listed <==> x in multiset(listed) <==> x in multiset(Firsts(items)) <==> x in Firsts(items);
    if x in listed {
      FirstsAreItems(items, x);
    }
    if x in items {
      var i :| 0 <= i < |items| && items[i] == x;
      assert HasKey(items, Key(x));
      var j :| 0 <= j < |Firsts(items)| && Key(Firsts(items)[j]) == Key(x);
      FirstsAreItems(items, Firsts(items)[j]);
    }
  }

  // ---------------------------------------------------------------------------------------------
  // From the sources to the list
  // ---------------------------------------------------------------------------------------------

  /** The results of a map, joined in order. */
  function Collected(results: seq<Option<seq<Item>>>): (items: seq<Item>)
    ensures forall x :: x in items <==> exists i :: 0 <= i < |results| && results[i].Some? && x in results[i].value
  {
    if results == [] then []
    else
      var last := results[|results| - 1];
      assert results == results[..|results| - 1] + [last];
      Collected(results[..|results| - 1]) + if last.Some? then last.value else []
  }

  function InsertSorted(x: Item, items: seq<Item>, now: int): (r: seq<Item>)
    ensures multiset(r) == multiset(items) + multiset{x}
  {
    if items == [] then [x]
    else if Compare(x, items[0], now) <= 0 then
      assert multiset([x] + items) == multiset(items) + multiset{x};
      [x] + items
    else
      assert items == [items[0]] + items[1..];
      [items[0]] + InsertSorted(x, items[1..], now)
  }

  function Arranged(items: seq<Item>, now: int): (r: seq<Item>)
    ensures multiset(r) == multiset(items)
  {
    if items == [] then []
    else
      assert items == items[..|items| - 1] + [items[|items| - 1]];
      InsertSorted(items[|items| - 1], Arranged(items[..|items| - 1], now), now)
  }

  lemma {:induction false} InsertKeepsSorted(x: Item, items: seq<Item>, now: int)
    requires IsSorted(items, now)
    ensures IsSorted(InsertSorted(x, items, now), now)
  {
    hide Compare;
    var r := InsertSorted(x, items, now);
    if items != [] {
      if Compare(x, items[0], now) <= 0 {
        forall j | 0 <= j < |items| ensures Compare(x, items[j], now) <= 0 {
          CompareChains(x, items[0], items[j], now);
        }
      } else {
        InsertKeepsSorted(x, items[1..], now);
        var s := InsertSorted(x, items[1..], now);
        forall j | 0 <= j < |s| ensures Compare(items[0], s[j], now) <= 0 {
          assert s[j] in multiset(s);
          CompareChains(items[0], x, x, now);
        }
      }
    }
  }

  lemma CompareChains(a: Item, b: Item, c: Item, now: int)
    ensures Compare(a, b, now) <= 0 && Compare(b, c, now) <= 0 ==> Compare(a, c, now) <= 0
    ensures Compare(a, b, now) < 0 <==> Compare(b, a, now) > 0
    ensures Compare(a, a, now) == 0
  {
    hide Order, Compare;
    OrderIsOrder(now);
    var o := Order(now);
    CompareIsOrder(a, b, now);
    CompareIsOrder(b, a, now);
    CompareIsOrder(b, c, now);
    CompareIsOrder(a, c, now);
    CompareIsOrder(a, a, now);
    assert Coherent(o(a, b), o(b, a), o(b, c), o(a, c));
    assert Coherent(o(a, a), o(a, a), o(a, a), o(a, a));
  }

  lemma {:induction false} ArrangedIsSorted(items: seq<Item>, now: int)
    ensures IsSorted(Arranged(items, now), now)
  {
    hide InsertSorted, Compare;
    if items != [] {
      ArrangedIsSorted(items[..|items| - 1], now);
      InsertKeepsSorted(items[|items| - 1], Arranged(items[..|items| - 1], now), now);
    }
  }

  /** The items of a briefing from the results of all profiles. */
  method ListItems(results: seq<Option<seq<Item>>>, now: int) returns (listed: seq<Item>)
    ensures IsBriefing(listed, Collected(results), now)
  {
    hide Compare, Key, Firsts;
    var unique := Deduplicate(Collected(results));
    listed := Arranged(unique, now);
    ArrangedIsSorted(unique, now);
  }

  ghost predicate AllEnded<R>(p: Pool<R>)
  {
    forall w :: 0 <= w < |p.workers| ==> p.workers[w].Finished?
  }

  /** End to end: whatever the order in which profiles are given, the limits and the order in which loads complete, the
      briefing lists the same items in the same order. Loading is a function of the profile; items of one key are equal. */
  lemma EveryRunListsTheSame<P(!new)>(profiles: seq<P>, others: seq<P>, load: P -> seq<Item>, now: int,
                                limit: nat, schedule: seq<nat>, listed: seq<Item>,
                                limit': nat, schedule': seq<nat>, listed': seq<Item>)
    requires limit > 0 && limit' > 0 && forall x :: x in profiles <==> x in others
    requires AllEnded(Run(profiles, limit, load, schedule)) && AllEnded(Run(others, limit', load, schedule'))
    requires IsBriefing(listed, Collected(Run(profiles, limit, load, schedule).results), now)
    requires IsBriefing(listed', Collected(Run(others, limit', load, schedule').results), now)
    requires KeysIdentify(Collected(Run(profiles, limit, load, schedule).results))
    ensures listed == listed'
  {
    hide Run, IsBriefing, Key;
    EveryScheduleMaps(profiles, limit, load, schedule);
    EveryScheduleMaps(others, limit', load, schedule');
    var items, items' := Collected(Run(profiles, limit, load, schedule).results), Collected(Run(others, limit', load, schedule').results);
    forall x ensures x in items <==> x in items' {
      CollectedFrom(profiles, load, x);
      CollectedFrom(others, load, x);
    }
    BriefingIsCanonical(listed, items, items', listed', now);
  }

  lemma CollectedFrom<P>(profiles: seq<P>, load: P -> seq<Item>, x: Item)
    ensures x in Collected(seq(|profiles|, i requires 0 <= i < |profiles| => Some(load(profiles[i])))) <==>
            exists p :: p in profiles && x in load(p)
  {
    var results := seq(|profiles|, i requires 0 <= i < |profiles| => Some(load(profiles[i])));
    if x in Collected(results) {
      var i :| 0 <= i < |results| && results[i].Some? && x in results[i].value;
      assert profiles[i] in profiles && x in load(profiles[i]);
    }
    if p :| p in profiles && x in load(p) {
      var i :| 0 <= i < |profiles| && profiles[i] == p;
      assert results[i].Some? && x in results[i].value;
    }
  }
}
