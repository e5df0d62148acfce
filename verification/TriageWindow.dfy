/**
 The triage queue board (script/github-triage-queue-board.py): which creation days are
 eligible on a given day, and the synchronisation of the board with the eligible issues.
 */
module TriageWindow {
  import opened Prelude

  // ---- The window ----------------------------------------------------------------

  /** Calendar days are counted so that day 0 is a Monday. */
  type Day = int

  /** Monday is 1 and Sunday is 7. */
  function IsoWeekday(d: Day): (w: nat)
    ensures 1 <= w <= 7
  {
    d % 7 + 1
  }

  /** On a weekend the window is that of the preceding Friday. */
  function AsOf(today: Day): (d: Day) {
    if IsoWeekday(today) >= 6 then today - (IsoWeekday(today) - 5) else today
  }

  function EligibilityWindow(today: Day): (w: (Day, Day)) {
    var day := AsOf(today);
    var weekday := if IsoWeekday(today) >= 6 then 5 else IsoWeekday(today);
    var thisMonday := day - (weekday - 1);
    (thisMonday - 4, day - if weekday <= 2 then 4 else 2)
  }

  predicate InWindow(d: Day, today: Day) {
    EligibilityWindow(today).0 <= d <= EligibilityWindow(today).1
  }

  predicate IsBusinessDay(d: Day) {
    IsoWeekday(d) <= 5
  }

  predicate IsFriday(d: Day) {
    IsoWeekday(d) == 5
  }

  /** The Friday of the week, Monday to Sunday, that contains the day. */
  function FridayOfWeek(d: Day): (f: Day)
    ensures IsFriday(f) && f - 4 <= d <= f + 2
  {
    d - d % 7 + 4
  }

  /** The one Friday whose window contains the day. */
  function FridayFor(d: Day): (f: Day) {
    FridayOfWeek(d + 4)
  }

  /** The window in terms of the week and the weekday. */
  lemma WindowByWeek(today: Day)
    ensures var monday, n := today / 7 * 7, today % 7;
            EligibilityWindow(today)
            == (monday - 4, if n == 0 then monday - 4 else if n == 1 then monday - 3 else if n >= 4 then monday + 2 else monday + n - 2)
  {
  }

  /** The window is never empty and its ends never move back. */
  lemma WindowMonotone(a: Day, b: Day)
    requires a <= b
    ensures EligibilityWindow(a).0 <= EligibilityWindow(a).1
    ensures EligibilityWindow(a).0 <= EligibilityWindow(b).0
    ensures EligibilityWindow(a).1 <= EligibilityWindow(b).1
  {
    WindowByWeek(a);
    WindowByWeek(b);
  }

  /** The Friday windows partition all calendar days. */
  lemma FridaysPartition(d: Day, f: Day)
    requires IsFriday(f)
    ensures InWindow(d, f) <==> f == FridayFor(d)
  {
    WindowByWeek(f);
  }

  /** A day is eligible in exactly one week: whenever it is, that week's Friday is its Friday. */
  lemma EligibleInOneWeek(d: Day, today: Day)
    ensures InWindow(d, today) ==> FridayOfWeek(today) == FridayFor(d)
    ensures InWindow(d, FridayFor(d))
  {
    WindowByWeek(today);
    WindowByWeek(FridayFor(d));
  }

  /** The day itself, or the Monday after it. */
  function Counted(d: Day): (c: Day)
    ensures IsBusinessDay(c) && d <= c <= d + 2
  {
    if IsBusinessDay(d) then d else d + 8 - IsoWeekday(d)
  }

  lemma NextBusinessDay(d: Day) returns (b: Day)
    requires IsBusinessDay(d)
    ensures IsBusinessDay(b) && d < b && forall x :: d < x && IsBusinessDay(x) ==> b <= x
    ensures b == if IsFriday(d) then d + 3 else d + 1
  {
    b := if IsFriday(d) then d + 3 else d + 1;
  }

  lemma EndNotWeekend(today: Day)
    ensures IsBusinessDay(EligibilityWindow(today).1)
  {
    WindowByWeek(today);
  }

  /**
   On a business day, an issue is behind the window's end exactly when a full business day lies
   strictly between its creation and today; a weekend creation counts as the Monday after it.
   */
  lemma EndMeansFullBusinessDay(created: Day, today: Day)
    requires IsBusinessDay(today)
    ensures created <= EligibilityWindow(today).1 <==>
            exists b :: Counted(created) < b < today && IsBusinessDay(b)
  {
    var c := Counted(created);
    var b := NextBusinessDay(c);
    WindowByWeek(today);
    EndNotWeekend(today);
    assert created <= EligibilityWindow(today).1 <==> c <= EligibilityWindow(today).1;
    assert c <= EligibilityWindow(today).1 <==> b < today;
    if b < today {
      assert c < b < today && IsBusinessDay(b);
    }
  }

  // ---- The board -------------------------------------------------------------------

  type Content = string

  /** Drafts and pull requests have no issue content. */
  datatype Item = Item(id: nat, content: Option<Content>)

  function Issues(items: seq<Item>): (cs: set<Content>) {
    set x | x in items && x.content.Some? :: x.content.value
  }

  predicate Stays(x: Item, eligible: seq<Content>) {
    x.content.None? || x.content.value in eligible
  }

  function Kept(items: seq<Item>, eligible: seq<Content>): (r: seq<Item>)
    ensures forall x :: x in r <==> x in items && Stays(x, eligible)
  {
    if items == [] then []
    else Kept(items[..|items| - 1], eligible) + if Stays(items[|items| - 1], eligible) then [items[|items| - 1]] else []
  }

  function Missing(eligible: seq<Content>, onBoard: set<Content>): (r: seq<Content>)
    ensures forall c :: c in r <==> c in eligible && c !in onBoard
  {
    if eligible == [] then []
    else
      Missing(eligible[..|eligible| - 1], onBoard)
      + if eligible[|eligible| - 1] in onBoard then [] else [eligible[|eligible| - 1]]
  }

  /** New items for the contents, with the next identifiers. */
  function Numbered(cs: seq<Content>, next: nat): (r: seq<Item>)
    ensures |r| == |cs| && forall i :: 0 <= i < |cs| ==> r[i] == Item(next + i, Some(cs[i]))
  {
    seq(|cs|, i requires 0 <= i < |cs| => Item(next + i, Some(cs[i])))
  }

  /** The board after a synchronisation. */
  function Synced(items: seq<Item>, eligible: seq<Content>, next: nat): (r: seq<Item>) {
    Kept(items, eligible) + Numbered(Missing(eligible, Issues(items)), next)
  }

  function WithoutId(items: seq<Item>, id: nat): (r: seq<Item>) {
    if items == [] then []
    else WithoutId(items[..|items| - 1], id) + if items[|items| - 1].id == id then [] else [items[|items| - 1]]
  }

  lemma {:induction false} WithoutAbsent(items: seq<Item>, id: nat)
    requires forall x :: x in items ==> x.id != id
    ensures WithoutId(items, id) == items
  {
    if items != [] {
      WithoutAbsent(items[..|items| - 1], id);
      assert items == items[..|items| - 1] + [items[|items| - 1]];
    }
  }

  lemma {:induction false} WithoutOne(a: seq<Item>, x: Item, b: seq<Item>)
    requires forall y :: y in a || y in b ==> y.id != x.id
    ensures WithoutId(a + [x] + b, x.id) == a + b
  {
    if b == [] {
      assert a + [x] + b == a + [x] && (a + [x])[..|a|] == a && a + b == a;
      WithoutAbsent(a, x.id);
    } else {
      var init, last := b[..|b| - 1], b[|b| - 1];
      WithoutOne(a, x, init);
      assert (a + [x] + b)[..|a + [x] + b| - 1] == a + [x] + init;
      assert last in b;
      assert a + b == a + init + [last];
    }
  }

  /** No identifier is used twice, and all lie below `next`. */
  ghost predicate DistinctIds(items: seq<Item>, next: nat) {
    && (forall i, j :: 0 <= i < j < |items| ==> items[i].id != items[j].id)
    && (forall x :: x in items ==> x.id < next)
  }

  lemma {:induction false} WithoutIdDistinct(items: seq<Item>, id: nat, next: nat)
    requires DistinctIds(items, next)
    ensures DistinctIds(WithoutId(items, id), next) && forall x :: x in WithoutId(items, id) ==> x in items
  {
    if items != [] {
      var init, last := items[..|items| - 1], items[|items| - 1];
      assert forall x :: x in init ==> x in items;
      WithoutIdDistinct(init, id, next);
      assert forall x :: x in init ==> x.id != last.id;
      assert last in items;
    }
  }

  class Board {
    var items: seq<Item>
    var next: nat

    ghost predicate Valid()
      reads this
    {
      DistinctIds(items, next)
    }

    constructor ()
      ensures Valid() && items == []
    {
      items, next := [], 0;
    }

    method AddToProject(content: Content)
      requires Valid()
      modifies this
      ensures Valid() && next == old(next) + 1
      ensures items == old(items) + [Item(old(next), Some(content))]
    {
      items := items + [Item(next, Some(content))];
      next := next + 1;
    }

    method RemoveFromProject(id: nat)
      requires Valid()
      modifies this`items
      ensures Valid() && items == WithoutId(old(items), id)
    {
      WithoutIdDistinct(items, id, next);
      items := WithoutId(items, id);
    }

    /** The first loop: add what is eligible and not on the board. */
    method AddMissing(eligible: seq<Content>, onBoard: set<Content>, dryRun: bool)
      requires Valid()
      modifies this
      ensures Valid()
      ensures dryRun ==> items == old(items) && next == old(next)
      ensures !dryRun ==> items == old(items) + Numbered(Missing(eligible, onBoard), old(next))
    {
      ghost var board, id := items, next;
      assert board + Numbered([], id) == board;
      for i := 0 to |eligible|
        invariant Valid()
        invariant (items, next) == if dryRun then (board, id) else Added(board, eligible, i, onBoard, id)
      {
        MissingStep(board, eligible, i, onBoard, id);
        if eligible[i] !in onBoard && !dryRun {
          AddToProject(eligible[i]);
        }
      }
      assert eligible[..|eligible|] == eligible;
    }

    /** The second loop: remove what the listing `current` shows and is not eligible. */
    method RemoveIneligible(current: seq<Item>, eligible: seq<Content>, ghost added: seq<Item>, ghost first: nat, dryRun: bool)
      requires Valid() && items == current + added && DistinctIds(current, first)
      requires forall x :: x in added ==> x.id >= first
      modifies this`items
      ensures Valid() && items == if dryRun then old(items) else Kept(current, eligible) + added
    {
      for i := 0 to |current|
        invariant Valid()
        invariant items == if dryRun then old(items) else Visited(current, i, eligible, added)
      {
        RemovalStep(current, i, eligible, added, first);
        if current[i].content.Some? && current[i].content.value !in eligible && !dryRun {
          RemoveFromProject(current[i].id);
        }
      }
      assert current[..|current|] == current && current[|current|..] + added == added;
    }

    /** Add what is eligible and missing, then remove what is not eligible. A dry run changes nothing. */
    method SyncProject(eligible: seq<Content>, dryRun: bool)
      requires Valid()
      modifies this
      ensures Valid()
      ensures items == if dryRun then old(items) else Synced(old(items), eligible, old(next))
    {
      var current := items;
      var onBoard := Issues(current);
      AddMissing(eligible, onBoard, dryRun);
      ghost var added := if dryRun then [] else Numbered(Missing(eligible, onBoard), old(next));
      RemoveIneligible(current, eligible, added, old(next), dryRun);
    }
  }

  /** The board and its next identifier after the first `i` eligible contents. */
  function Added(items: seq<Item>, eligible: seq<Content>, i: nat, onBoard: set<Content>, next: nat): (r: (seq<Item>, nat))
    requires i <= |eligible|
  {
    var missing := Missing(eligible[..i], onBoard);
    (items + Numbered(missing, next), next + |missing|)
  }

  lemma MissingStep(items: seq<Item>, eligible: seq<Content>, i: nat, onBoard: set<Content>, next: nat)
    requires i < |eligible|
    ensures var (before, id) := Added(items, eligible, i, onBoard, next);
            Added(items, eligible, i + 1, onBoard, next)
            == if eligible[i] in onBoard then (before, id) else (before + [Item(id, Some(eligible[i]))], id + 1)
  {
    assert eligible[..i + 1][..i] == eligible[..i];
    var missing := Missing(eligible[..i], onBoard);
    var more := missing + [eligible[i]];
    assert missing + [] == missing;
    assert items + Numbered(more, next)
        == items + Numbered(missing, next) + [Item(next + |missing|, Some(eligible[i]))];
  }

  /** No other item on the board, kept, still to be visited or new, has the identifier of item `i`. */
  lemma OthersDiffer(items: seq<Item>, i: nat, eligible: seq<Content>, added: seq<Item>, next: nat)
    requires i < |items| && DistinctIds(items, next)
    requires forall x :: x in added ==> x.id >= next
    ensures forall y :: y in Kept(items[..i], eligible) || y in items[i + 1..] + added ==> y.id != items[i].id
  {
    assert items[i] in items;
    assert forall y :: y in items[..i] ==> y.id != items[i].id;
    assert forall y :: y in items[i + 1..] ==> y.id != items[i].id;
  }

  /** The board when the first `i` items of the listing have been visited, with the new items at its end. */
  function Visited(items: seq<Item>, i: nat, eligible: seq<Content>, added: seq<Item>): (r: seq<Item>)
    requires i <= |items|
  {
    Kept(items[..i], eligible) + (items[i..] + added)
  }

  /** Visiting item `i` of the listing, with the new items at the end of the board. */
  lemma RemovalStep(items: seq<Item>, i: nat, eligible: seq<Content>, added: seq<Item>, next: nat)
    requires i < |items| && DistinctIds(items, next) && forall x :: x in added ==> x.id >= next
    ensures var before := Visited(items, i, eligible, added);
            Visited(items, i + 1, eligible, added)
            == if Stays(items[i], eligible) then before else WithoutId(before, items[i].id)
  {
    var done, rest := Kept(items[..i], eligible), items[i + 1..] + added;
    assert items[..i + 1][..i] == items[..i];
    assert items[i..] + added == [items[i]] + rest;
    assert done + ([items[i]] + rest) == done + [items[i]] + rest;
    OthersDiffer(items, i, eligible, added, next);
    WithoutOne(done, items[i], rest);
  }

  // ---- What a synchronisation achieves -----------------------------------------------

  lemma IssuesOfNumbered(cs: seq<Content>, next: nat)
    ensures Issues(Numbered(cs, next)) == Elements(cs)
  {
    var r := Numbered(cs, next);
    forall c | c in cs
      ensures c in Issues(r)
    {
      var i :| 0 <= i < |cs| && cs[i] == c;
      assert r[i] in r && r[i].content == Some(c);
    }
  }

  /**
   Afterwards the issues on the board are exactly the eligible ones; drafts, pull requests and
   issues that stay eligible keep their items.
   */
  lemma SyncedIssues(items: seq<Item>, eligible: seq<Content>, next: nat)
    ensures Issues(Synced(items, eligible, next)) == Elements(eligible)
    ensures forall x :: x in items && Stays(x, eligible) ==> x in Synced(items, eligible, next)
    ensures forall x :: x in Synced(items, eligible, next) && x !in items ==>
              x.content.Some? && x.content.value in eligible && x.content.value !in Issues(items) && x.id >= next
  {
    var missing := Missing(eligible, Issues(items));
    var kept, added := Kept(items, eligible), Numbered(missing, next);
    IssuesOfNumbered(missing, next);
    assert Issues(kept + added) == Issues(kept) + Issues(added);
    forall c | c in eligible && c in Issues(items)
      ensures c in Issues(kept)
    {
      var x :| x in items && x.content == Some(c);
      assert x in kept;
    }
  }

  lemma {:induction false} KeptAll(items: seq<Item>, eligible: seq<Content>)
    requires forall x :: x in items ==> Stays(x, eligible)
    ensures Kept(items, eligible) == items
  {
    if items != [] {
      KeptAll(items[..|items| - 1], eligible);
      assert items == items[..|items| - 1] + [items[|items| - 1]];
    }
  }

  lemma {:induction false} NothingMissing(eligible: seq<Content>, onBoard: set<Content>)
    requires forall c :: c in eligible ==> c in onBoard
    ensures Missing(eligible, onBoard) == []
  {
    if eligible != [] {
      NothingMissing(eligible[..|eligible| - 1], onBoard);
    }
  }

  /** Synchronising twice is the same as once. */
  lemma SyncedTwice(items: seq<Item>, eligible: seq<Content>, next: nat, later: nat)
    ensures Synced(Synced(items, eligible, next), eligible, later) == Synced(items, eligible, next)
  {
    var r := Synced(items, eligible, next);
    SyncedIssues(items, eligible, next);
    forall x | x in r
      ensures Stays(x, eligible)
    {
      if x.content.Some? {
        assert x.content.value in Issues(r);
      }
    }
    KeptAll(r, eligible);
    NothingMissing(eligible, Issues(r));
    assert Numbered([], later) == [];
  }
}
