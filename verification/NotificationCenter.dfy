/**
 The notification centre: pages of notification groups merged into one list, by key, with the union of
 their notification ids, capped unread counts, the latest notification, and newest groups first.
 */
module NotificationCenter {
  import opened Common

  type Id = string

  /** `createdAt` is the time in milliseconds that the source computes from a valid date string. */
  datatype Item = Item(id: Id, createdAt: int)

  datatype Group = Group(
    groupKey: string, category: string, count: nat, unreadCount: nat, latest: Item,
    notificationIds: seq<Id>, grouped: bool)

  // ---------------------------------------------------------------- the merge

  /** `[...new Set(ids)]`: the first occurrence of each. */
  function Distinct(ids: seq<Id>): (r: seq<Id>)
    ensures forall x :: x in r <==> x in ids
    ensures forall i, j :: 0 <= i < j < |r| ==> r[i] != r[j]
  {
    if ids == [] then [] else
      var init, last := Distinct(ids[..|ids| - 1]), ids[|ids| - 1];
      assert ids == ids[..|ids| - 1] + [last];
      if last in init then init else init + [last]
  }

  function Min(a: nat, b: nat): nat {
    if a < b then a else b
  }

  function Combined(previous: Group, group: Group): Group {
    var ids := Distinct(previous.notificationIds + group.notificationIds);
    group.(notificationIds := ids, count := |ids|, grouped := |ids| > 1,
           unreadCount := Min(|ids|, previous.unreadCount + group.unreadCount),
           latest := if previous.latest.createdAt > group.latest.createdAt then previous.latest else group.latest)
  }

  /** `Map.prototype.set` on the groups in insertion order: an existing key keeps its place. */
  function Put(groups: seq<Group>, g: Group): seq<Group> {
    if groups == [] then [g]
    else if groups[0].groupKey == g.groupKey then [g] + groups[1..]
    else [groups[0]] + Put(groups[1..], g)
  }

  function Get(groups: seq<Group>, key: string): Option<Group> {
    if groups == [] then None
    else if groups[0].groupKey == key then Some(groups[0])
    else Get(groups[1..], key)
  }

  function MergeOne(byKey: seq<Group>, g: Group): seq<Group> {
    match Get(byKey, g.groupKey)
    case None => Put(byKey, g)
    case Some(previous) => Put(byKey, Combined(previous, g))
  }

  function MergeAll(byKey: seq<Group>, incoming: seq<Group>): seq<Group> {
    if incoming == [] then byKey else
      MergeOne(MergeAll(byKey, incoming[..|incoming| - 1]), incoming[|incoming| - 1])
  }

  function PutAll(groups: seq<Group>): seq<Group> {
    if groups == [] then [] else Put(PutAll(groups[..|groups| - 1]), groups[|groups| - 1])
  }

  /** `sort` by descending date; JavaScript's sort is stable, so equals stay in order. */
  function InsertByDate(groups: seq<Group>, g: Group): seq<Group> {
    if groups == [] || groups[|groups| - 1].latest.createdAt >= g.latest.createdAt then groups + [g]
    else InsertByDate(groups[..|groups| - 1], g) + [groups[|groups| - 1]]
  }

  function SortNewestFirst(groups: seq<Group>): seq<Group> {
    if groups == [] then [] else
      InsertByDate(SortNewestFirst(groups[..|groups| - 1]), groups[|groups| - 1])
  }

  function Merged(current: seq<Group>, incoming: seq<Group>): seq<Group> {
    SortNewestFirst(MergeAll(PutAll(current), incoming))
  }

  lemma PutAllNext(groups: seq<Group>, i: nat)
    requires i < |groups|
    ensures PutAll(groups[..i + 1]) == Put(PutAll(groups[..i]), groups[i])
  {
    assert groups[..i + 1][..i] == groups[..i];
  }

  lemma MergeAllNext(byKey: seq<Group>, incoming: seq<Group>, i: nat)
    requires i < |incoming|
    ensures MergeAll(byKey, incoming[..i + 1]) == MergeOne(MergeAll(byKey, incoming[..i]), incoming[i])
  {
    assert incoming[..i + 1][..i] == incoming[..i];
  }

  method MergeGroups(current: seq<Group>, incoming: seq<Group>) returns (r: seq<Group>)
    ensures r == Merged(current, incoming)
  {
    var byKey: seq<Group> := [];
    for i := 0 to |current|
      invariant byKey == PutAll(current[..i])
    {
      PutAllNext(current, i);
      byKey := Put(byKey, current[i]);
    }
    assert current[..|current|] == current;
    for i := 0 to |incoming|
      invariant byKey == MergeAll(PutAll(current), incoming[..i])
    {
      var group := incoming[i];
      MergeAllNext(PutAll(current), incoming, i);
      var previous := Get(byKey, group.groupKey);
      if previous.None? {
        byKey := Put(byKey, group);
        continue;
      }
      var notificationIds := Distinct(previous.value.notificationIds + group.notificationIds);
      byKey := Put(byKey, group.(
        notificationIds := notificationIds,
        count := |notificationIds|,
        unreadCount := Min(|notificationIds|, previous.value.unreadCount + group.unreadCount),
        grouped := |notificationIds| > 1,
        latest := if previous.value.latest.createdAt > group.latest.createdAt
                  then previous.value.latest else group.latest));
    }
    assert incoming[..|incoming|] == incoming;
    r := SortNewestFirst(byKey);
  }

  // ---------------------------------------------------------------- the screen

  datatype Page = Page(view: string, groups: seq<Group>, nextCursor: Option<Id>)

  class Center {
    var cursorRef: Option<Id>
    var center: Option<Page>

    /** The answer to `load(append)`: merged into the same view, or put in its place. */
    method Loaded(append: bool, value: Page)
      modifies this
      ensures cursorRef == value.nextCursor
      ensures center == Some(
        if append && old(center).Some? && old(center).value.view == value.view
        then value.(groups := Merged(old(center).value.groups, value.groups)) else value)
    {
      cursorRef := value.nextCursor;
      if append && center.Some? && center.value.view == value.view {
        var groups := MergeGroups(center.value.groups, value.groups);
        center := Some(value.(groups := groups));
      } else {
        center := Some(value);
      }
    }

    method ViewChanged()
      modifies this
      ensures cursorRef == None && center == None
    {
      cursorRef := None;
      center := None;
    }
  }

  /** The groups on screen after the pages of one view, the first loaded afresh and the others appended. */
  function Shown(pages: seq<seq<Group>>): seq<Group>
    requires pages != []
  {
    if |pages| == 1 then pages[0] else Merged(Shown(pages[..|pages| - 1]), pages[|pages| - 1])
  }

  // ---------------------------------------------------------------- what a list of groups amounts to

  ghost predicate DistinctKeys(groups: seq<Group>) {
    forall i, j :: 0 <= i < j < |groups| ==> groups[i].groupKey != groups[j].groupKey
  }

  ghost predicate WellFormed(g: Group) {
    g.notificationIds != [] && NoDuplicates(g.notificationIds) &&
    g.count == |g.notificationIds| && (g.grouped <==> g.count > 1)
  }

  function IdSet(g: Group): set<Id> {
    set x | x in g.notificationIds
  }

  /** The ids that the groups seen for a key hold between them. */
  function IdsFor(seen: seq<Group>, key: string): set<Id> {
    set g, x | g in seen && g.groupKey == key && x in g.notificationIds :: x
  }

  ghost predicate IsLatestDate(seen: seq<Group>, key: string, date: int) {
    && (exists g :: g in seen && g.groupKey == key && g.latest.createdAt == date)
    && (forall g :: g in seen && g.groupKey == key ==> g.latest.createdAt <= date)
  }

  /** One group stands for all those seen with its key. */
  ghost predicate Sums(g: Group, seen: seq<Group>) {
    WellFormed(g) && IdSet(g) == IdsFor(seen, g.groupKey) && IsLatestDate(seen, g.groupKey, g.latest.createdAt)
  }

  function Keys(groups: seq<Group>): set<string> {
    set g | g in groups :: g.groupKey
  }

  /** Each key seen has one group, which sums up what was seen. */
  ghost predicate Summarises(groups: seq<Group>, seen: seq<Group>) {
    DistinctKeys(groups) && Keys(groups) == Keys(seen) && forall g :: g in groups ==> Sums(g, seen)
  }

  ghost predicate NewestFirst(groups: seq<Group>) {
    forall i, j :: 0 <= i < j < |groups| ==> groups[i].latest.createdAt >= groups[j].latest.createdAt
  }

  // ---------------------------------------------------------------- Put, Get and sort

  lemma {:induction false} GetFinds(groups: seq<Group>, key: string)
    ensures match Get(groups, key)
            case Some(g) => g in groups && g.groupKey == key
            case None => key !in Keys(groups)
  {
    if groups != [] {
      GetFinds(groups[1..], key);
      assert groups == [groups[0]] + groups[1..];
    }
  }

  lemma {:induction false} PutReplaces(groups: seq<Group>, g: Group)
    requires DistinctKeys(groups)
    ensures DistinctKeys(Put(groups, g))
    ensures forall x :: x in Put(groups, g) <==> x == g || (x in groups && x.groupKey != g.groupKey)
  {
    if groups != [] {
      var rest := groups[1..];
      assert groups == [groups[0]] + rest;
      PutReplaces(rest, g);
    }
  }

  lemma {:induction false} PutAllIsIdentity(groups: seq<Group>)
    requires DistinctKeys(groups)
    ensures PutAll(groups) == groups
  {
    if groups != [] {
      var init, last := groups[..|groups| - 1], groups[|groups| - 1];
      PutAllIsIdentity(init);
      PutNewKey(init, last);
      assert groups == init + [last];
    }
  }

  lemma {:induction false} PutNewKey(groups: seq<Group>, g: Group)
    requires forall x :: x in groups ==> x.groupKey != g.groupKey
    ensures Put(groups, g) == groups + [g]
  {
    if groups != [] {
      PutNewKey(groups[1..], g);
      assert groups + [g] == [groups[0]] + (groups[1..] + [g]);
    }
  }

  lemma {:induction false} InsertHolds(groups: seq<Group>, g: Group)
    ensures forall x :: x in InsertByDate(groups, g) <==> x in groups || x == g
  {
    if groups != [] && groups[|groups| - 1].latest.createdAt < g.latest.createdAt {
      InsertHolds(groups[..|groups| - 1], g);
      assert groups == groups[..|groups| - 1] + [groups[|groups| - 1]];
    }
  }

  lemma {:induction false} InsertKeepsDistinct(groups: seq<Group>, g: Group)
    requires DistinctKeys(groups) && forall x :: x in groups ==> x.groupKey != g.groupKey
    ensures DistinctKeys(InsertByDate(groups, g))
  {
    if groups != [] && groups[|groups| - 1].latest.createdAt < g.latest.createdAt {
      var init, last := groups[..|groups| - 1], groups[|groups| - 1];
      InsertKeepsDistinct(init, g);
      InsertHolds(init, g);
      assert forall x :: x in init ==> x.groupKey != last.groupKey;
    }
  }

  lemma {:induction false} InsertSorts(groups: seq<Group>, g: Group)
    requires NewestFirst(groups)
    ensures NewestFirst(InsertByDate(groups, g))
  {
    if groups != [] && groups[|groups| - 1].latest.createdAt < g.latest.createdAt {
      var init, last := groups[..|groups| - 1], groups[|groups| - 1];
      InsertSorts(init, g);
      InsertHolds(init, g);
      assert forall x :: x in init ==> x.latest.createdAt >= last.latest.createdAt;
    }
  }

  /** Sorting puts the newest first and neither loses, adds nor repeats a group. */
  lemma {:induction false} SortKeeps(groups: seq<Group>)
    ensures NewestFirst(SortNewestFirst(groups))
    ensures forall x :: x in SortNewestFirst(groups) <==> x in groups
    ensures DistinctKeys(groups) ==> DistinctKeys(SortNewestFirst(groups))
  {
    if groups != [] {
      var init, last := groups[..|groups| - 1], groups[|groups| - 1];
      SortKeeps(init);
      InsertSorts(SortNewestFirst(init), last);
      InsertHolds(SortNewestFirst(init), last);
      assert groups == init + [last];
      if DistinctKeys(groups) {
        InsertKeepsDistinct(SortNewestFirst(init), last);
      }
    }
  }

  // ---------------------------------------------------------------- merging keeps the summary

  lemma CombinedSums(previous: Group, g: Group, seen: seq<Group>)
    requires Sums(previous, seen) && WellFormed(g) && previous.groupKey == g.groupKey
    ensures Sums(Combined(previous, g), seen + [g])
  {
    var c := Combined(previous, g);
    assert IdSet(c) == IdSet(previous) + IdSet(g);
    assert IdsFor(seen + [g], g.groupKey) == IdsFor(seen, g.groupKey) + IdSet(g);
    assert g.notificationIds[0] in c.notificationIds;
    assert g in seen + [g];
  }

  lemma AloneSums(g: Group, seen: seq<Group>)
    requires WellFormed(g) && g.groupKey !in Keys(seen)
    ensures Sums(g, seen + [g])
  {
    assert forall x :: x in seen ==> x.groupKey in Keys(seen);
    assert g in seen + [g];
    assert IdsFor(seen + [g], g.groupKey) == IdSet(g);
  }

  lemma OtherSums(x: Group, g: Group, seen: seq<Group>)
    requires Sums(x, seen) && x.groupKey != g.groupKey
    ensures Sums(x, seen + [g])
  {
    assert IdsFor(seen + [g], x.groupKey) == IdsFor(seen, x.groupKey);
    var y :| y in seen && y.groupKey == x.groupKey && y.latest.createdAt == x.latest.createdAt;
    assert y in seen + [g];
  }

  lemma MergeOneSummarises(byKey: seq<Group>, seen: seq<Group>, g: Group)
    requires Summarises(byKey, seen) && WellFormed(g)
    ensures Summarises(MergeOne(byKey, g), seen + [g])
  {
    GetFinds(byKey, g.groupKey);
    var h := match Get(byKey, g.groupKey) case None => g case Some(previous) => Combined(previous, g);
    PutReplaces(byKey, h);
    if Get(byKey, g.groupKey).None? {
      AloneSums(g, seen);
    } else {
      CombinedSums(Get(byKey, g.groupKey).value, g, seen);
    }
    forall x | x in byKey && x.groupKey != g.groupKey ensures Sums(x, seen + [g]) {
      OtherSums(x, g, seen);
    }
    KeysAfterPut(byKey, h);
    assert Keys(seen + [g]) == Keys(seen) + {g.groupKey};
  }

  lemma KeysAfterPut(byKey: seq<Group>, h: Group)
    requires DistinctKeys(byKey)
    ensures Keys(Put(byKey, h)) == Keys(byKey) + {h.groupKey}
  {
    PutReplaces(byKey, h);
    forall key ensures key in Keys(Put(byKey, h)) <==> key in Keys(byKey) + {h.groupKey} {
      if key in Keys(byKey) && key != h.groupKey {
        var x :| x in byKey && x.groupKey == key;
        assert x in Put(byKey, h);
      }
      if key == h.groupKey {
        assert h in Put(byKey, h);
      }
    }
  }

  lemma {:induction false} MergeAllSummarises(byKey: seq<Group>, seen: seq<Group>, incoming: seq<Group>)
    requires Summarises(byKey, seen) && forall g :: g in incoming ==> WellFormed(g)
    ensures Summarises(MergeAll(byKey, incoming), seen + incoming)
  {
    if incoming == [] {
      assert seen + incoming == seen;
    } else {
      var init, last := incoming[..|incoming| - 1], incoming[|incoming| - 1];
      MergeAllSummarises(byKey, seen, init);
      MergeOneSummarises(MergeAll(byKey, init), seen + init, last);
      assert seen + incoming == seen + init + [last];
    }
  }

  lemma SortSummarises(groups: seq<Group>, seen: seq<Group>)
    requires Summarises(groups, seen)
    ensures Summarises(SortNewestFirst(groups), seen)
  {
    SortKeeps(groups);
    assert Keys(SortNewestFirst(groups)) == Keys(groups);
  }

  function Flat(pages: seq<seq<Group>>): seq<Group> {
    if pages == [] then [] else Flat(pages[..|pages| - 1]) + pages[|pages| - 1]
  }

  ghost predicate GoodPages(pages: seq<seq<Group>>) {
    && pages != [] && DistinctKeys(pages[0])
    && forall i :: 0 <= i < |pages| ==> forall g :: g in pages[i] ==> WellFormed(g)
  }

  lemma SeenAloneSums(page: seq<Group>, g: Group)
    requires DistinctKeys(page) && g in page && WellFormed(g)
    ensures Sums(g, page)
  {
    assert forall x :: x in page && x.groupKey == g.groupKey ==> x == g;
  }

  /**
   After any number of pages: each key once, its ids the duplicate-free union over the pages, `count` and
   `grouped` in agreement with them, its latest date the greatest, and, once merged, newest groups first.
   */
  lemma {:induction false} PagesMerge(pages: seq<seq<Group>>)
    requires GoodPages(pages)
    ensures Summarises(Shown(pages), Flat(pages))
    ensures |pages| > 1 ==> NewestFirst(Shown(pages))
  {
    if |pages| == 1 {
      assert Flat(pages[..0]) == [] && Flat(pages) == pages[0];
      forall g | g in pages[0] ensures Sums(g, pages[0]) {
        SeenAloneSums(pages[0], g);
      }
    } else {
      var init, last := pages[..|pages| - 1], pages[|pages| - 1];
      assert GoodPages(init) && last == pages[|pages| - 1];
      PagesMerge(init);
      PutAllIsIdentity(Shown(init));
      MergeAllSummarises(Shown(init), Flat(init), last);
      SortSummarises(MergeAll(Shown(init), last), Flat(init) + last);
      SortKeeps(MergeAll(Shown(init), last));
    }
  }

  // ---------------------------------------------------------------- what a merged group shows

  ghost predicate SameIds(a: seq<Id>, b: seq<Id>) {
    forall x :: x in a <==> x in b
  }

  /** `r[j]` first occurs at `p`, with what comes before it before. */
  ghost predicate FirstAt(ids: seq<Id>, r: seq<Id>, j: int, p: int) {
    0 <= p < |ids| && 0 <= j < |r| && ids[p] == r[j] && SameIds(ids[..p], r[..j])
  }

  /** `[...new Set(ids)]` keeps each id where it occurs first. */
  lemma {:induction false} DistinctInOrder(ids: seq<Id>, j: nat)
    requires j < |Distinct(ids)|
    ensures exists p :: FirstAt(ids, Distinct(ids), j, p)
  {
    var init, last := ids[..|ids| - 1], ids[|ids| - 1];
    var before, r := Distinct(init), Distinct(ids);
    if j < |before| {
      DistinctInOrder(init, j);
      var p :| FirstAt(init, before, j, p);
      assert ids[..p] == init[..p] && r[..j] == before[..j];
      assert FirstAt(ids, r, j, p);
    } else {
      assert ids[..|init|] == init && r[..j] == before;
      assert FirstAt(ids, r, j, |init|);
    }
  }

  lemma {:induction false} DistinctOfDistinct(a: seq<Id>, b: seq<Id>)
    ensures Distinct(Distinct(a) + b) == Distinct(a + b)
  {
    if b == [] {
      assert Distinct(a) + b == Distinct(a) && a + b == a;
      DistinctOfUnique(Distinct(a));
    } else {
      var init, last := b[..|b| - 1], b[|b| - 1];
      DistinctOfDistinct(a, init);
      assert (Distinct(a) + b)[..|Distinct(a) + b| - 1] == Distinct(a) + init;
      assert (a + b)[..|a + b| - 1] == a + init;
    }
  }

  lemma {:induction false} DistinctOfUnique(ids: seq<Id>)
    requires NoDuplicates(ids)
    ensures Distinct(ids) == ids
  {
    if ids != [] {
      DistinctOfUnique(ids[..|ids| - 1]);
      assert ids == ids[..|ids| - 1] + [ids[|ids| - 1]];
    }
  }

  /** The ids of the groups seen for a key, one group after the other. */
  function AllIds(seen: seq<Group>, key: string): seq<Id> {
    if seen == [] then [] else
      AllIds(seen[..|seen| - 1], key) + if seen[|seen| - 1].groupKey == key then seen[|seen| - 1].notificationIds else []
  }

  /** The notification is the latest of a group seen with that key; of equal dates, the one seen last. */
  ghost predicate IsLatest(item: Item, seen: seq<Group>, key: string) {
    exists i :: 0 <= i < |seen| && LatestAt(item, seen, key, i)
  }

  ghost predicate LatestAt(item: Item, seen: seq<Group>, key: string, i: int)
    requires 0 <= i < |seen|
  {
    && seen[i].groupKey == key && seen[i].latest == item
    && forall j :: 0 <= j < |seen| && seen[j].groupKey == key ==>
         if j <= i then seen[j].latest.createdAt <= item.createdAt else seen[j].latest.createdAt < item.createdAt
  }

  ghost predicate IsLastCategory(category: string, seen: seq<Group>, key: string) {
    exists i :: 0 <= i < |seen| && CategoryAt(category, seen, key, i)
  }

  ghost predicate CategoryAt(category: string, seen: seq<Group>, key: string, i: int)
    requires 0 <= i < |seen|
  {
    && seen[i].groupKey == key && seen[i].category == category
    && forall j :: i < j < |seen| ==> seen[j].groupKey != key
  }

  ghost predicate ShowsLast(g: Group, seen: seq<Group>) {
    && IsLatest(g.latest, seen, g.groupKey)
    && IsLastCategory(g.category, seen, g.groupKey)
    && g.notificationIds == Distinct(AllIds(seen, g.groupKey))
  }

  ghost predicate AllShowLast(groups: seq<Group>, seen: seq<Group>) {
    forall g :: g in groups ==> ShowsLast(g, seen)
  }

  lemma AllIdsNext(seen: seq<Group>, g: Group, key: string)
    ensures AllIds(seen + [g], key) == AllIds(seen, key) + if g.groupKey == key then g.notificationIds else []
  {
    assert (seen + [g])[..|seen|] == seen;
  }

  lemma {:induction false} NoIdsUnseen(seen: seq<Group>, key: string)
    requires forall x :: x in seen ==> x.groupKey != key
    ensures AllIds(seen, key) == []
  {
    if seen != [] {
      NoIdsUnseen(seen[..|seen| - 1], key);
    }
  }

  /** A group of the key that comes after those seen, alone or with a later date. */
  lemma LatestIsNew(seen: seq<Group>, g: Group)
    requires forall j :: 0 <= j < |seen| && seen[j].groupKey == g.groupKey ==> seen[j].latest.createdAt <= g.latest.createdAt
    ensures IsLatest(g.latest, seen + [g], g.groupKey)
  {
    var all := seen + [g];
    assert forall j :: 0 <= j < |seen| ==> all[j] == seen[j];
    assert LatestAt(g.latest, all, g.groupKey, |seen|);
  }

  lemma LatestStays(item: Item, seen: seq<Group>, g: Group, key: string)
    requires IsLatest(item, seen, key) && (g.groupKey == key ==> g.latest.createdAt < item.createdAt)
    ensures IsLatest(item, seen + [g], key)
  {
    var all := seen + [g];
    var i :| 0 <= i < |seen| && LatestAt(item, seen, key, i);
    assert forall j :: 0 <= j < |seen| ==> all[j] == seen[j];
    assert LatestAt(item, all, key, i);
  }

  lemma LatestBounds(item: Item, seen: seq<Group>, key: string)
    requires IsLatest(item, seen, key)
    ensures forall j :: 0 <= j < |seen| && seen[j].groupKey == key ==> seen[j].latest.createdAt <= item.createdAt
  {
  }

  lemma CategoryIsNew(seen: seq<Group>, g: Group)
    ensures IsLastCategory(g.category, seen + [g], g.groupKey)
  {
    assert CategoryAt(g.category, seen + [g], g.groupKey, |seen|);
  }

  lemma CombinedShows(previous: Group, g: Group, seen: seq<Group>)
    requires ShowsLast(previous, seen) && previous.groupKey == g.groupKey
    ensures ShowsLast(Combined(previous, g), seen + [g])
  {
    if previous.latest.createdAt > g.latest.createdAt {
      LatestStays(previous.latest, seen, g, g.groupKey);
    } else {
      LatestBounds(previous.latest, seen, g.groupKey);
      LatestIsNew(seen, g);
    }
    CategoryIsNew(seen, g);
    AllIdsNext(seen, g, g.groupKey);
    DistinctOfDistinct(AllIds(seen, g.groupKey), g.notificationIds);
  }

  lemma AloneShows(g: Group, seen: seq<Group>)
    requires NoDuplicates(g.notificationIds) && forall x :: x in seen ==> x.groupKey != g.groupKey
    ensures ShowsLast(g, seen + [g])
  {
    LatestIsNew(seen, g);
    CategoryIsNew(seen, g);
    NoIdsUnseen(seen, g.groupKey);
    AllIdsNext(seen, g, g.groupKey);
    DistinctOfUnique(g.notificationIds);
    assert [] + g.notificationIds == g.notificationIds;
  }

  lemma OtherShows(x: Group, g: Group, seen: seq<Group>)
    requires ShowsLast(x, seen) && x.groupKey != g.groupKey
    ensures ShowsLast(x, seen + [g])
  {
    LatestStays(x.latest, seen, g, x.groupKey);
    var i :| 0 <= i < |seen| && CategoryAt(x.category, seen, x.groupKey, i);
    assert CategoryAt(x.category, seen + [g], x.groupKey, i);
    AllIdsNext(seen, g, x.groupKey);
    assert AllIds(seen, x.groupKey) + [] == AllIds(seen, x.groupKey);
  }

  lemma MergeOneShows(byKey: seq<Group>, seen: seq<Group>, g: Group)
    requires DistinctKeys(byKey) && Keys(byKey) == Keys(seen) && AllShowLast(byKey, seen)
    requires NoDuplicates(g.notificationIds)
    ensures AllShowLast(MergeOne(byKey, g), seen + [g])
  {
    var h := NewShows(byKey, seen, g);
    PutReplaces(byKey, h);
    forall x | x in byKey && x.groupKey != g.groupKey ensures ShowsLast(x, seen + [g]) {
      OtherShows(x, g, seen);
    }
  }

  lemma NewShows(byKey: seq<Group>, seen: seq<Group>, g: Group) returns (h: Group)
    requires Keys(byKey) == Keys(seen) && AllShowLast(byKey, seen) && NoDuplicates(g.notificationIds)
    ensures MergeOne(byKey, g) == Put(byKey, h) && h.groupKey == g.groupKey && ShowsLast(h, seen + [g])
  {
    GetFinds(byKey, g.groupKey);
    match Get(byKey, g.groupKey) {
      case None =>
        h := g;
        assert forall x :: x in seen ==> x.groupKey in Keys(seen);
        AloneShows(g, seen);
      case Some(previous) =>
        h := Combined(previous, g);
        CombinedShows(previous, g, seen);
    }
  }

  lemma {:induction false} MergeAllShows(byKey: seq<Group>, seen: seq<Group>, incoming: seq<Group>)
    requires Summarises(byKey, seen) && AllShowLast(byKey, seen) && forall g :: g in incoming ==> WellFormed(g)
    ensures AllShowLast(MergeAll(byKey, incoming), seen + incoming)
  {
    if incoming == [] {
      assert seen + incoming == seen;
    } else {
      var init, last := incoming[..|incoming| - 1], incoming[|incoming| - 1];
      MergeAllShows(byKey, seen, init);
      MergeAllSummarises(byKey, seen, init);
      assert last in incoming;
      MergeOneShows(MergeAll(byKey, init), seen + init, last);
      assert seen + incoming == seen + init + [last];
    }
  }

  lemma {:induction false} FirstPageShows(page: seq<Group>)
    requires DistinctKeys(page) && forall g :: g in page ==> WellFormed(g)
    ensures AllShowLast(page, page)
  {
    if page != [] {
      var init, last := page[..|page| - 1], page[|page| - 1];
      FirstPageShows(init);
      assert page == init + [last];
      assert last in page && forall x :: x in init ==> x.groupKey != last.groupKey;
      AloneShows(last, init);
      forall x | x in init ensures ShowsLast(x, page) {
        OtherShows(x, last, init);
      }
    }
  }

  /**
   After any number of pages each group shows a notification that some page gave for its key, with the greatest
   date and, of equal dates, seen last; the category of the group seen last; and the ids in the order in which
   they were first seen.
   */
  lemma {:induction false} PagesShowLast(pages: seq<seq<Group>>)
    requires GoodPages(pages)
    ensures forall g :: g in Shown(pages) ==>
              && IsLatest(g.latest, Flat(pages), g.groupKey)
              && IsLastCategory(g.category, Flat(pages), g.groupKey)
              && g.notificationIds == Distinct(AllIds(Flat(pages), g.groupKey))
  {
    if |pages| == 1 {
      assert Flat(pages[..0]) == [] && Flat(pages) == pages[0];
      FirstPageShows(pages[0]);
    } else {
      var init, last := pages[..|pages| - 1], pages[|pages| - 1];
      assert GoodPages(init) && last == pages[|pages| - 1];
      PagesMerge(init);
      PagesShowLast(init);
      PutAllIsIdentity(Shown(init));
      MergeAllShows(Shown(init), Flat(init), last);
      SortKeeps(MergeAll(Shown(init), last));
    }
  }

  /** One merge, field by field. */
  lemma CombinedFields(previous: Group, g: Group)
    ensures var c := Combined(previous, g);
            && c.groupKey == g.groupKey && c.category == g.category
            && c.count == |c.notificationIds| && (c.grouped <==> c.count > 1)
            && (c.unreadCount == c.count || c.unreadCount == previous.unreadCount + g.unreadCount)
            && c.unreadCount <= c.count && c.unreadCount <= previous.unreadCount + g.unreadCount
            && c.latest == if previous.latest.createdAt > g.latest.createdAt then previous.latest else g.latest
  {
  }

  // ---------------------------------------------------------------- places

  function KeySeq(groups: seq<Group>): seq<string> {
    if groups == [] then [] else [groups[0].groupKey] + KeySeq(groups[1..])
  }

  /** Setting a key keeps its place, or takes the last one. */
  lemma {:induction false} PutKeepsPlaces(groups: seq<Group>, g: Group)
    ensures KeySeq(Put(groups, g)) == KeySeq(groups) + if g.groupKey in Keys(groups) then [] else [g.groupKey]
  {
    if groups != [] {
      var rest := groups[1..];
      assert groups == [groups[0]] + rest;
      assert Keys(groups) == {groups[0].groupKey} + Keys(rest);
      if groups[0].groupKey == g.groupKey {
        assert ([g] + rest)[1..] == rest;
      } else {
        PutKeepsPlaces(rest, g);
        assert ([groups[0]] + Put(rest, g))[1..] == Put(rest, g);
      }
    }
  }

  function OfDate(groups: seq<Group>, date: int): seq<Group> {
    if groups == [] then [] else
      OfDate(groups[..|groups| - 1], date)
      + if groups[|groups| - 1].latest.createdAt == date then [groups[|groups| - 1]] else []
  }

  lemma OfDateNext(groups: seq<Group>, g: Group, date: int)
    ensures OfDate(groups + [g], date) == OfDate(groups, date) + if g.latest.createdAt == date then [g] else []
  {
    assert (groups + [g])[..|groups|] == groups;
  }

  lemma {:induction false} InsertIsStable(groups: seq<Group>, g: Group, date: int)
    ensures OfDate(InsertByDate(groups, g), date) == OfDate(groups + [g], date)
  {
    if groups != [] && groups[|groups| - 1].latest.createdAt < g.latest.createdAt {
      var init, last := groups[..|groups| - 1], groups[|groups| - 1];
      InsertIsStable(init, g, date);
      OfDateNext(InsertByDate(init, g), last, date);
      OfDateNext(init, g, date);
      OfDateNext(groups, g, date);
    }
  }

  /** Groups of equal dates stay in the order they had. */
  lemma {:induction false} SortIsStable(groups: seq<Group>, date: int)
    ensures OfDate(SortNewestFirst(groups), date) == OfDate(groups, date)
  {
    if groups != [] {
      var init, last := groups[..|groups| - 1], groups[|groups| - 1];
      SortIsStable(init, date);
      InsertIsStable(SortNewestFirst(init), last, date);
      OfDateNext(SortNewestFirst(init), last, date);
    }
  }

  // ---------------------------------------------------------------- the order of the pages

  ghost predicate SameGroups(a: seq<Group>, b: seq<Group>) {
    forall g :: g in a <==> g in b
  }

  lemma {:induction false} FlatHolds(pages: seq<seq<Group>>, g: Group)
    ensures g in Flat(pages) <==> exists i :: 0 <= i < |pages| && g in pages[i]
  {
    if pages != [] {
      FlatHolds(pages[..|pages| - 1], g);
    }
  }

  /** Keys, id sets and latest dates do not depend on the order of the pages, nor on a page read twice. */
  lemma {:induction false} PageOrderIrrelevant(a: seq<seq<Group>>, b: seq<seq<Group>>)
    requires GoodPages(a) && GoodPages(b) && forall page :: page in a <==> page in b
    ensures Keys(Shown(a)) == Keys(Shown(b))
    ensures forall g, h :: g in Shown(a) && h in Shown(b) && g.groupKey == h.groupKey ==>
              IdSet(g) == IdSet(h) && g.count == h.count && g.latest.createdAt == h.latest.createdAt
  {
    PagesMerge(a);
    PagesMerge(b);
    forall g ensures g in Flat(a) <==> g in Flat(b) {
      FlatHolds(a, g);
      FlatHolds(b, g);
      if g in Flat(a) {
        SamePagesSameGroups(a, b, g);
      } else if g in Flat(b) {
        SamePagesSameGroups(b, a, g);
      }
    }
    SameGroupsSameKeys(Flat(a), Flat(b));
    forall g, h | g in Shown(a) && h in Shown(b) && g.groupKey == h.groupKey
      ensures IdSet(g) == IdSet(h) && g.count == h.count && g.latest.createdAt == h.latest.createdAt
    {
      SummariesAgree(g, h, Flat(a), Flat(b));
    }
  }

  lemma SamePagesSameGroups(a: seq<seq<Group>>, b: seq<seq<Group>>, g: Group)
    requires forall page :: page in a ==> page in b
    requires exists i :: 0 <= i < |a| && g in a[i]
    ensures exists i :: 0 <= i < |b| && g in b[i]
  {
    var i :| 0 <= i < |a| && g in a[i];
    assert a[i] in b;
  }

  lemma SameGroupsSameKeys(a: seq<Group>, b: seq<Group>)
    requires SameGroups(a, b)
    ensures Keys(a) == Keys(b)
  {
  }

  lemma SummariesAgree(g: Group, h: Group, a: seq<Group>, b: seq<Group>)
    requires SameGroups(a, b) && Sums(g, a) && Sums(h, b) && g.groupKey == h.groupKey
    ensures IdSet(g) == IdSet(h) && g.count == h.count && g.latest.createdAt == h.latest.createdAt
  {
    assert IdsFor(a, g.groupKey) == IdsFor(b, g.groupKey);
    DistinctCount(g.notificationIds);
    DistinctCount(h.notificationIds);
    assert (set x | x in g.notificationIds) == IdSet(g) && (set x | x in h.notificationIds) == IdSet(h);
  }

  // ---------------------------------------------------------------- unread counts

  /** How many of the group's notifications are really unread. */
  function TrueUnread(g: Group, unread: set<Id>): nat {
    |unread * IdSet(g)|
  }

  lemma CombinedIds(previous: Group, g: Group)
    ensures var c := Combined(previous, g);
            IdSet(c) == IdSet(previous) + IdSet(g) && |c.notificationIds| == |IdSet(c)|
  {
    var c := Combined(previous, g);
    DistinctCount(c.notificationIds);
    assert (set x | x in c.notificationIds) == IdSet(c);
  }

  lemma {:induction false} SizeOfUnion<T>(a: set<T>, b: set<T>)
    ensures |a + b| == |a| + |b| - |a * b|
  {
    assert a + b == a + (b - a) && b == (b - a) + (a * b);
  }

  lemma {:induction false} SubsetSize<T>(a: set<T>, b: set<T>)
    requires a <= b
    ensures |a| <= |b| && (|a| == |b| ==> a == b)
  {
    assert b == a + (b - a);
    assert |b - a| == 0 ==> b - a == {};
  }

  lemma CapExactIff(a: set<Id>, b: set<Id>, unread: set<Id>)
    ensures Min(|a + b|, |unread * a| + |unread * b|) == |unread * (a + b)|
            <==> unread * a * b == {} || a + b <= unread
  {
    var ua, ub, all := unread * a, unread * b, unread * (a + b);
    assert all == ua + ub && ua * ub == unread * a * b;
    SizeOfUnion(ua, ub);
    SubsetSize(all, a + b);
    if a + b <= unread {
      assert all == a + b;
    }
    if unread * a * b != {} {
      assert |ua * ub| > 0;
    }
  }

  /** The count is never below the true number and never above the size of the group. */
  ghost predicate UnreadBounded(g: Group, unread: set<Id>) {
    TrueUnread(g, unread) <= g.unreadCount <= |g.notificationIds|
  }

  ghost predicate UnreadExact(g: Group, unread: set<Id>) {
    g.unreadCount == TrueUnread(g, unread)
  }

  lemma CombinedBounded(previous: Group, g: Group, unread: set<Id>)
    requires UnreadBounded(previous, unread) && UnreadBounded(g, unread)
    ensures UnreadBounded(Combined(previous, g), unread)
  {
    var c := Combined(previous, g);
    CombinedIds(previous, g);
    assert unread * IdSet(c) == unread * IdSet(previous) + unread * IdSet(g);
    SizeOfUnion(unread * IdSet(previous), unread * IdSet(g));
    SubsetSize(unread * IdSet(c), IdSet(c));
  }

  /**
   Merging an exact group into one whose count is exact or too high gives an exact count if and only if the
   count was exact and no unread notification was on both sides, or everything in the merged group is unread.
   */
  lemma {:induction false} MergedUnreadExactIff(previous: Group, g: Group, unread: set<Id>)
    requires UnreadBounded(previous, unread) && NoDuplicates(previous.notificationIds) && UnreadExact(g, unread)
    ensures var c := Combined(previous, g);
            UnreadExact(c, unread)
            <==> UnreadExact(previous, unread) && (unread * IdSet(previous) * IdSet(g) == {} || IdSet(c) <= unread)
  {
    CombinedIds(previous, g);
    CapExactIff(IdSet(previous), IdSet(g), unread);
    if !UnreadExact(previous, unread) {
      CapTooHigh(previous, g, unread);
    }
  }

  lemma CapTooHigh(previous: Group, g: Group, unread: set<Id>)
    requires UnreadBounded(previous, unread) && NoDuplicates(previous.notificationIds) && UnreadExact(g, unread)
    requires !UnreadExact(previous, unread)
    ensures !UnreadExact(Combined(previous, g), unread)
  {
    var c, a, b := Combined(previous, g), IdSet(previous), IdSet(g);
    CombinedIds(previous, g);
    assert unread * IdSet(c) == unread * a + unread * b;
    SizeOfUnion(unread * a, unread * b);
    if a <= unread {
      AllUnreadIsExact(previous, unread);
    }
    SubsetSize(unread * IdSet(c), IdSet(c));
  }

  lemma AllUnreadIsExact(g: Group, unread: set<Id>)
    requires UnreadBounded(g, unread) && NoDuplicates(g.notificationIds) && IdSet(g) <= unread
    ensures UnreadExact(g, unread)
  {
    DistinctCount(g.notificationIds);
    assert (set x | x in g.notificationIds) == IdSet(g) == unread * IdSet(g);
  }

  lemma ExactIsBounded(g: Group, unread: set<Id>)
    requires WellFormed(g) && UnreadExact(g, unread)
    ensures UnreadBounded(g, unread)
  {
    DistinctCount(g.notificationIds);
    assert (set x | x in g.notificationIds) == IdSet(g);
    SubsetSize(unread * IdSet(g), IdSet(g));
  }

  /** The groups seen for one key have no notification in common. */
  ghost predicate DisjointIds(seen: seq<Group>) {
    forall i, j :: 0 <= i < j < |seen| && seen[i].groupKey == seen[j].groupKey ==> IdSet(seen[i]) !! IdSet(seen[j])
  }

  ghost predicate AllBounded(groups: seq<Group>, unread: set<Id>) {
    forall g :: g in groups ==> UnreadBounded(g, unread)
  }

  ghost predicate AllExact(groups: seq<Group>, unread: set<Id>) {
    forall g :: g in groups ==> UnreadExact(g, unread)
  }

  /** What the `i`-th group adds to those before it of its key repeats nothing unread, or all of them are unread. */
  ghost predicate CountsRightly(seen: seq<Group>, i: nat, unread: set<Id>)
    requires i < |seen|
  {
    var key := seen[i].groupKey;
    || unread * IdsFor(seen[..i], key) * IdSet(seen[i]) == {}
    || IdsFor(seen[..i + 1], key) <= unread
  }

  ghost predicate AlwaysCountsRightly(seen: seq<Group>, key: string, unread: set<Id>) {
    forall i :: 0 <= i < |seen| && seen[i].groupKey == key ==> CountsRightly(seen, i, unread)
  }

  lemma CountsRightlyNext(seen: seq<Group>, g: Group, key: string, unread: set<Id>)
    ensures AlwaysCountsRightly(seen + [g], key, unread) <==>
            && AlwaysCountsRightly(seen, key, unread)
            && (g.groupKey == key ==> CountsRightly(seen + [g], |seen|, unread))
  {
    var all := seen + [g];
    forall i | 0 <= i < |seen| ensures all[i] == seen[i] && (CountsRightly(all, i, unread) <==> CountsRightly(seen, i, unread)) {
      assert all[..i] == seen[..i] && all[..i + 1] == seen[..i + 1];
    }
    assert all[|seen|] == g;
  }

  /** Bounded in any case, and exact for just the keys whose groups always counted rightly. */
  ghost predicate UnreadSummary(groups: seq<Group>, seen: seq<Group>, unread: set<Id>) {
    && AllBounded(groups, unread)
    && forall g :: g in groups ==> (UnreadExact(g, unread) <==> AlwaysCountsRightly(seen, g.groupKey, unread))
  }

  /** The count of the group that one more group makes, alone or merged into the one before it. */
  lemma NewCount(byKey: seq<Group>, seen: seq<Group>, g: Group, unread: set<Id>) returns (h: Group)
    requires Summarises(byKey, seen) && UnreadSummary(byKey, seen, unread)
    requires WellFormed(g) && UnreadExact(g, unread)
    ensures MergeOne(byKey, g) == Put(byKey, h) && h.groupKey == g.groupKey && UnreadBounded(h, unread)
    ensures UnreadExact(h, unread) <==> AlwaysCountsRightly(seen + [g], g.groupKey, unread)
  {
    GetFinds(byKey, g.groupKey);
    ExactIsBounded(g, unread);
    CountsRightlyNext(seen, g, g.groupKey, unread);
    assert (seen + [g])[..|seen|] == seen && (seen + [g])[..|seen| + 1] == seen + [g];
    match Get(byKey, g.groupKey) {
      case None =>
        h := g;
        NothingSeen(seen, g.groupKey, unread);
      case Some(previous) =>
        h := Combined(previous, g);
        CombinedBounded(previous, g, unread);
        CombinedSums(previous, g, seen);
        MergedUnreadExactIff(previous, g, unread);
    }
  }

  lemma NothingSeen(seen: seq<Group>, key: string, unread: set<Id>)
    requires key !in Keys(seen)
    ensures IdsFor(seen, key) == {} && AlwaysCountsRightly(seen, key, unread)
  {
    assert forall x :: x in seen ==> x.groupKey in Keys(seen);
  }

  lemma MergeOneUnread(byKey: seq<Group>, seen: seq<Group>, g: Group, unread: set<Id>)
    requires Summarises(byKey, seen) && UnreadSummary(byKey, seen, unread)
    requires WellFormed(g) && UnreadExact(g, unread)
    ensures UnreadSummary(MergeOne(byKey, g), seen + [g], unread)
  {
    var h := NewCount(byKey, seen, g, unread);
    PutReplaces(byKey, h);
    forall x | x in byKey && x.groupKey != g.groupKey
      ensures UnreadExact(x, unread) <==> AlwaysCountsRightly(seen + [g], x.groupKey, unread)
    {
      CountsRightlyNext(seen, g, x.groupKey, unread);
    }
  }

  lemma {:induction false} MergeAllUnread(byKey: seq<Group>, seen: seq<Group>, incoming: seq<Group>, unread: set<Id>)
    requires Summarises(byKey, seen) && UnreadSummary(byKey, seen, unread)
    requires forall g :: g in incoming ==> WellFormed(g) && UnreadExact(g, unread)
    ensures UnreadSummary(MergeAll(byKey, incoming), seen + incoming, unread)
  {
    if incoming == [] {
      assert seen + incoming == seen;
    } else {
      var init, last := incoming[..|incoming| - 1], incoming[|incoming| - 1];
      MergeAllUnread(byKey, seen, init, unread);
      MergeAllSummarises(byKey, seen, init);
      MergeOneUnread(MergeAll(byKey, init), seen + init, last, unread);
      assert seen + incoming == seen + init + [last];
    }
  }

  lemma DisjointCountsRightly(seen: seq<Group>, key: string, unread: set<Id>)
    requires DisjointIds(seen)
    ensures AlwaysCountsRightly(seen, key, unread)
  {
    forall i | 0 <= i < |seen| && seen[i].groupKey == key ensures CountsRightly(seen, i, unread) {
      forall x | x in IdsFor(seen[..i], key) ensures x !in IdSet(seen[i]) {
        var h :| h in seen[..i] && h.groupKey == key && x in h.notificationIds;
        var j :| 0 <= j < i && seen[..i][j] == h;
        assert IdSet(seen[j]) !! IdSet(seen[i]) && x in IdSet(seen[j]);
      }
    }
  }

  lemma FirstPageUnread(page: seq<Group>, unread: set<Id>)
    requires DistinctKeys(page) && AllExact(page, unread) && forall g :: g in page ==> WellFormed(g)
    ensures UnreadSummary(page, page, unread)
  {
    forall g | g in page ensures UnreadBounded(g, unread) && AlwaysCountsRightly(page, g.groupKey, unread) {
      ExactIsBounded(g, unread);
      DisjointCountsRightly(page, g.groupKey, unread);
    }
  }

  /**
   When each page counts its unread notifications exactly, the merged counts are never too low and never
   exceed their groups. A count is exact if and only if, for its key, each page repeated no unread notification
   of the pages before it, or had nothing but unread ones up to then.
   */
  lemma {:induction false} UnreadOverPages(pages: seq<seq<Group>>, unread: set<Id>)
    requires GoodPages(pages)
    requires forall i :: 0 <= i < |pages| ==> AllExact(pages[i], unread)
    ensures AllBounded(Shown(pages), unread)
    ensures forall g :: g in Shown(pages) ==>
              (UnreadExact(g, unread) <==> AlwaysCountsRightly(Flat(pages), g.groupKey, unread))
    ensures DisjointIds(Flat(pages)) ==> AllExact(Shown(pages), unread)
  {
    UnreadSummaryOverPages(pages, unread);
    if DisjointIds(Flat(pages)) {
      forall g | g in Shown(pages) ensures UnreadExact(g, unread) {
        DisjointCountsRightly(Flat(pages), g.groupKey, unread);
      }
    }
  }

  lemma {:induction false} UnreadSummaryOverPages(pages: seq<seq<Group>>, unread: set<Id>)
    requires GoodPages(pages)
    requires forall i :: 0 <= i < |pages| ==> AllExact(pages[i], unread)
    ensures UnreadSummary(Shown(pages), Flat(pages), unread)
  {
    if |pages| == 1 {
      assert Flat(pages[..0]) == [] && Flat(pages) == pages[0];
      FirstPageUnread(pages[0], unread);
    } else {
      var init, last := pages[..|pages| - 1], pages[|pages| - 1];
      assert GoodPages(init) && last == pages[|pages| - 1];
      PagesMerge(init);
      UnreadSummaryOverPages(init, unread);
      PutAllIsIdentity(Shown(init));
      MergeAllUnread(Shown(init), Flat(init), last, unread);
      SortKeeps(MergeAll(Shown(init), last));
    }
  }

  const TwoOneUnread := Group("k", "c", 2, 1, Item("a", 2), ["a", "b"], true)
  const OneAgain := Group("k", "c", 1, 1, Item("a", 2), ["a"], false)

  lemma BothPagesExact()
    ensures WellFormed(TwoOneUnread) && WellFormed(OneAgain)
    ensures UnreadExact(TwoOneUnread, {"a"}) && UnreadExact(OneAgain, {"a"})
    ensures "a" in {"a"} * IdSet(TwoOneUnread) * IdSet(OneAgain) && "b" in IdSet(TwoOneUnread) && "b" !in {"a"}
  {
    assert "a"[0] != "b"[0];
    assert {"a"} * IdSet(TwoOneUnread) == {"a"} && {"a"} * IdSet(OneAgain) == {"a"};
  }

  /** A page that repeats an unread notification of a group with a read one makes its count too high. */
  lemma RepeatedUnreadCountsTwice()
    ensures var pages := [[TwoOneUnread], [OneAgain]];
            && GoodPages(pages) && AllExact(pages[0], {"a"}) && AllExact(pages[1], {"a"})
            && !AllExact(Shown(pages), {"a"})
  {
    var pages, seen := [[TwoOneUnread], [OneAgain]], [TwoOneUnread, OneAgain];
    BothPagesExact();
    FlatOfTwo([TwoOneUnread], [OneAgain]);
    assert [TwoOneUnread] + [OneAgain] == seen;
    PagesMerge(pages);
    UnreadOverPages(pages, {"a"});
    SecondCountsWrongly();
    assert TwoOneUnread in seen && "k" in Keys(seen);
    var g :| g in Shown(pages) && g.groupKey == "k";
  }

  lemma FlatOfTwo(first: seq<Group>, again: seq<Group>)
    ensures Flat([first, again]) == first + again
  {
    assert [first, again][..1] == [first] && [first][..0] == [];
    assert Flat([first]) == Flat([]) + first;
  }

  lemma SecondCountsWrongly()
    ensures !AlwaysCountsRightly([TwoOneUnread, OneAgain], "k", {"a"})
  {
    var seen := [TwoOneUnread, OneAgain];
    BothPagesExact();
    assert seen[..1] == [TwoOneUnread] && seen[..2] == seen;
    assert TwoOneUnread in seen[..1] && TwoOneUnread in seen;
    assert "a" in {"a"} * IdsFor(seen[..1], "k") * IdSet(OneAgain);
    assert "b" in IdsFor(seen, "k");
    assert !CountsRightly(seen, 1, {"a"});
  }
}
