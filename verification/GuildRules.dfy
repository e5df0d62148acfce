/**
 When the guild board's stale sweep acts (script/github-guild-board.py), read off the item itself: the
 board's conditions, the times of the first guild assignee, and the check-ins.
 */
module GuildRules {
  import opened Prelude
  import opened GuildBoard

  const SECONDS_A_DAY := 24 * 60 * 60

  /** The first field of that name has the value. */
  ghost predicate FirstField(fields: seq<(string, string)>, name: string, value: string) {
    exists i :: 0 <= i < |fields| && fields[i] == (name, value) && forall j :: 0 <= j < i ==> fields[j].0 != name
  }

  /** A live issue in progress that nobody put on hold and no pull request is open for. */
  ghost predicate Watched(item: Item) {
    && item.isIssue && !item.archived && !item.openPr && "guild hold" !in item.labels
    && FirstField(item.fields, "Status", "In Progress")
  }

  lemma {:induction false} StatusIs(fields: seq<(string, string)>, value: string)
    ensures ItemStatus(fields) == Some(value) <==> FirstField(fields, "Status", value)
  {
    if fields != [] {
      var rest := fields[1..];
      StatusIs(rest, value);
      if fields[0].0 == "Status" {
        assert FirstField(fields, "Status", value) ==> fields[0].1 == value;
      } else {
        FieldBehind(fields, "Status", value);
      }
    }
  }

  lemma FieldBehind(fields: seq<(string, string)>, name: string, value: string)
    requires fields != [] && fields[0].0 != name
    ensures FirstField(fields, name, value) <==> FirstField(fields[1..], name, value)
  {
    var rest := fields[1..];
    if i :| 0 <= i < |rest| && rest[i] == (name, value) && forall j :: 0 <= j < i ==> rest[j].0 != name {
      assert fields[i + 1] == (name, value);
      assert forall j :: 0 <= j < i + 1 ==> fields[j].0 != name;
    }
    if i :| 0 <= i < |fields| && fields[i] == (name, value) && forall j :: 0 <= j < i ==> fields[j].0 != name {
      assert rest[i - 1] == (name, value);
      assert forall j :: 0 <= j < i - 1 ==> rest[j] == fields[j + 1];
    }
  }

  lemma WatchedIff(item: Item)
    ensures InProgress(item) <==> Watched(item)
  {
    StatusIs(item.fields, "In Progress");
  }

  /** The first assignee who is in the guild. */
  ghost predicate Measured(guild: set<Person>, item: Item, p: Person) {
    exists k :: 0 <= k < |item.assignees| && item.assignees[k] == p && p in guild
      && forall j :: 0 <= j < k ==> item.assignees[j] !in guild
  }

  lemma {:induction false} FirstMember(guild: set<Person>, people: seq<Person>, k: nat)
    requires k < |people| && people[k] in guild && forall j :: 0 <= j < k ==> people[j] !in guild
    ensures GuildMembers(guild, people) != [] && GuildMembers(guild, people)[0] == people[k]
  {
    if k > 0 {
      FirstMember(guild, people[1..], k - 1);
    }
  }

  ghost predicate ActiveOn(item: Item, p: Person, t: Time) {
    Assignment(p, t) in item.assignments || Plain(p, t) in item.comments
  }

  ghost predicate CheckedIn(item: Item, t: Time) {
    exists q :: CheckIn(q, t) in item.comments
  }

  ghost predicate EverAssigned(item: Item, p: Person) {
    exists t :: Assignment(p, t) in item.assignments
  }

  /** All activity of this person lies that far back. */
  ghost predicate QuietFor(item: Item, p: Person, now: Time, seconds: int) {
    forall t :: ActiveOn(item, p, t) ==> t + seconds <= now
  }

  /** A check-in that this person has not answered. */
  ghost predicate Unanswered(item: Item, p: Person) {
    exists c :: CheckedIn(item, c) && forall t :: ActiveOn(item, p, t) ==> t <= c
  }

  ghost predicate CheckInsOld(item: Item, now: Time, seconds: int) {
    forall c :: CheckedIn(item, c) ==> c + seconds <= now
  }

  /** The sweep's measurements are the latest activity and the latest check-in. */
  lemma Measures(item: Item, p: Person)
    requires LatestAssignment(item.assignments, p).Some?
    ensures var active := LatestActivity(item.comments, p, LatestAssignment(item.assignments, p).value);
            ActiveOn(item, p, active) && forall t :: ActiveOn(item, p, t) ==> t <= active
    ensures var c := LatestCheckIn(item.comments);
            && (c.Some? ==> CheckedIn(item, c.value))
            && forall t :: CheckedIn(item, t) ==> c.Some? && t <= c.value
  {
    LatestAssignmentIsMax(item.assignments, p);
    LatestActivityIsMax(item.comments, p, LatestAssignment(item.assignments, p).value);
    LatestCheckInIsMax(item.comments);
  }

  lemma AssignedIff(item: Item, p: Person)
    ensures LatestAssignment(item.assignments, p).Some? <==> EverAssigned(item, p)
  {
    LatestAssignmentIsMax(item.assignments, p);
  }

  lemma WholeDays(earlier: Time, later: Time, days: nat)
    ensures DaysBetween(earlier, later) < days <==> later < earlier + days * SECONDS_A_DAY
  {
  }

  /** Nothing happens to an item that is not watched or has no guild assignee. */
  lemma OthersSkipped(guild: set<Person>, item: Item, now: Time)
    requires !Watched(item) || forall p :: p in item.assignees ==> p !in guild
    ensures SweepItem(guild, item, now) == Skip
  {
    WatchedIff(item);
    if GuildMembers(guild, item.assignees) != [] {
      assert GuildMembers(guild, item.assignees)[0] in GuildMembers(guild, item.assignees);
    }
  }

  /**
   A watched item: nudged exactly after 14 quiet days without an unanswered check-in, cleared exactly
   when one has been unanswered and all have been there for 7 days.
   */
  lemma SweepIff(guild: set<Person>, item: Item, now: Time, p: Person)
    requires Watched(item) && Measured(guild, item, p)
    ensures var a := SweepItem(guild, item, now);
            && (a == NoAssignmentEvent <==> !EverAssigned(item, p))
            && (a == PostCheckIn(p) <==>
                  EverAssigned(item, p) && !Unanswered(item, p) && QuietFor(item, p, now, 14 * 24 * 60 * 60))
            && (a == ClearAssignees(GuildMembers(guild, item.assignees)) <==>
                  EverAssigned(item, p) && Unanswered(item, p) && CheckInsOld(item, now, 7 * 24 * 60 * 60))
            && a in {NoAssignmentEvent, PostCheckIn(p), ClearAssignees(GuildMembers(guild, item.assignees)), Skip}
  {
    WatchedIff(item);
    var k :| 0 <= k < |item.assignees| && item.assignees[k] == p && p in guild
      && forall j :: 0 <= j < k ==> item.assignees[j] !in guild;
    FirstMember(guild, item.assignees, k);
    AssignedIff(item, p);
    if EverAssigned(item, p) {
      Measures(item, p);
      var active := LatestActivity(item.comments, p, LatestAssignment(item.assignments, p).value);
      DecideIff(item, p, now, active, LatestCheckIn(item.comments), GuildMembers(guild, item.assignees));
    }
  }

  lemma DecideIff(item: Item, p: Person, now: Time, active: Time, checkIn: Option<Time>, who: seq<Person>)
    requires who != [] && who[0] == p
    requires ActiveOn(item, p, active) && forall t :: ActiveOn(item, p, t) ==> t <= active
    requires checkIn.Some? ==> CheckedIn(item, checkIn.value)
    requires forall t :: CheckedIn(item, t) ==> checkIn.Some? && t <= checkIn.value
    ensures var a := Decide(active, checkIn, now, who);
            && (a == PostCheckIn(p) <==> !Unanswered(item, p) && QuietFor(item, p, now, 14 * 24 * 60 * 60))
            && (a == ClearAssignees(who) <==> Unanswered(item, p) && CheckInsOld(item, now, 7 * 24 * 60 * 60))
            && a in {PostCheckIn(p), ClearAssignees(who), Skip}
  {
    WholeDays(active, now, 14);
    assert Unanswered(item, p) <==> checkIn.Some? && checkIn.value >= active;
    if checkIn.Some? {
      WholeDays(checkIn.value, now, 7);
    }
  }

  /** A clearing removes the guild members, and nobody else. */
  lemma ClearingRemoves(guild: set<Person>, s: Issue, e: Event)
    requires e.Swept? && SweepItem(guild, AsItem(s, e.around), e.now).ClearAssignees?
    ensures var r := Step(guild, s, e);
            && (forall p :: p in r.assignees <==> p in s.assignees && p !in guild)
            && r == s.(clock := e.at, assignees := r.assignees,
                       clears := s.clears + [Clear(GuildMembers(guild, s.assignees), e.at)])
  {
    assert SweepItem(guild, AsItem(s, e.around), e.now) == ClearAssignees(GuildMembers(guild, s.assignees));
  }
}
