/**
 The stale sweep of the guild board (script/github-guild-board.py): nudge an
 assignee who went quiet, then clear the assignment after a grace period. The
 only state is the issue itself, its assignment events and timestamped comments.
 */
module GuildBoard {
  import opened Prelude

  type Person = string
  type Time = int

  /** Times are in seconds. */
  const DAY: int := 86400
  const CHECK_IN_AFTER_DAYS := 14
  const AUTO_CLEAR_AFTER_DAYS := 7
  const STATUS_IN_PROGRESS := "In Progress"
  const NUDGE_HOLD_LABEL := "guild hold"
  const STATUS_FIELD := "Status"

  /** `(later - earlier).days`, rounded down. */
  function DaysBetween(earlier: Time, later: Time): (d: int) {
    (later - earlier) / DAY
  }

  datatype Comment = Plain(author: Person, at: Time) | CheckIn(assignee: Person, at: Time)

  datatype Assignment = Assignment(who: Person, at: Time)

  /** A board item with everything the sweep reads about its issue. */
  datatype Item = Item(
    archived: bool, isIssue: bool, fields: seq<(string, string)>,
    assignees: seq<Person>, labels: seq<string>, openPr: bool,
    assignments: seq<Assignment>, comments: seq<Comment>)

  datatype Action = Skip | PostCheckIn(assignee: Person) | ClearAssignees(who: seq<Person>) | NoAssignmentEvent

  // ---- What the sweep looks at ---------------------------------------------

  /** The value of the first status field. */
  function ItemStatus(fields: seq<(string, string)>): (s: Option<string>) {
    if fields == [] then None
    else if fields[0].0 == STATUS_FIELD then Some(fields[0].1)
    else ItemStatus(fields[1..])
  }

  function GuildMembers(guild: set<Person>, people: seq<Person>): (r: seq<Person>)
    ensures forall p :: p in r <==> p in people && p in guild
  {
    if people == [] then []
    else (if people[0] in guild then [people[0]] else []) + GuildMembers(guild, people[1..])
  }

  function Later(a: Option<Time>, t: Time): (r: Option<Time>) {
    if a.Some? && a.value >= t then a else Some(t)
  }

  /** The last time this person was assigned. */
  function LatestAssignment(assignments: seq<Assignment>, who: Person): (t: Option<Time>) {
    if assignments == [] then None
    else
      var last := assignments[|assignments| - 1];
      var before := LatestAssignment(assignments[..|assignments| - 1], who);
      if last.who == who then Later(before, last.at) else before
  }

  /** The latest of `t` and this person's comments. */
  function LatestActivity(comments: seq<Comment>, who: Person, t: Time): (r: Time)
    ensures r >= t
  {
    if comments == [] then t
    else
      var last := comments[|comments| - 1];
      var before := LatestActivity(comments[..|comments| - 1], who, t);
      if last.Plain? && last.author == who && last.at > before then last.at else before
  }

  function LatestCheckIn(comments: seq<Comment>): (t: Option<Time>) {
    if comments == [] then None
    else
      var last := comments[|comments| - 1];
      var before := LatestCheckIn(comments[..|comments| - 1]);
      if last.CheckIn? then Later(before, last.at) else before
  }

  /** What the sweep does once it knows the last activity and the latest check-in. */
  function Decide(active: Time, checkIn: Option<Time>, now: Time, who: seq<Person>): (a: Action)
    requires who != []
  {
    if checkIn.None? || checkIn.value < active then
      if DaysBetween(active, now) < CHECK_IN_AFTER_DAYS then Skip else PostCheckIn(who[0])
    else if DaysBetween(checkIn.value, now) < AUTO_CLEAR_AFTER_DAYS then Skip
    else ClearAssignees(who)
  }

  /** What the sweep asks of an item besides a guild assignee. */
  predicate InProgress(item: Item) {
    && !item.archived && item.isIssue
    && ItemStatus(item.fields) == Some(STATUS_IN_PROGRESS)
    && NUDGE_HOLD_LABEL !in item.labels
    && !item.openPr
  }

  predicate Eligible(guild: set<Person>, item: Item) {
    InProgress(item) && GuildMembers(guild, item.assignees) != []
  }

  /** Only the first guild assignee is measured; all of them are cleared. */
  function SweepItem(guild: set<Person>, item: Item, now: Time): (a: Action) {
    if !Eligible(guild, item) then Skip
    else
      var who := GuildMembers(guild, item.assignees);
      var since := LatestAssignment(item.assignments, who[0]);
      if since.None? then NoAssignmentEvent
      else
        Decide(LatestActivity(item.comments, who[0], since.value), LatestCheckIn(item.comments), now, who)
  }

  /** One pass over the comments for both the latest check-in and the latest activity. */
  method ScanComments(comments: seq<Comment>, assignee: Person, since: Time)
      returns (active: Time, checkIn: Option<Time>)
    ensures active == LatestActivity(comments, assignee, since)
    ensures checkIn == LatestCheckIn(comments)
  {
    active, checkIn := since, None;
    for i := 0 to |comments|
      invariant active == LatestActivity(comments[..i], assignee, since)
      invariant checkIn == LatestCheckIn(comments[..i])
    {
      var comment := comments[i];
      assert comments[..i + 1][..i] == comments[..i];
      if comment.CheckIn? {
        if checkIn.None? || comment.at > checkIn.value {
          checkIn := Some(comment.at);
        }
      } else if comment.author == assignee {
        if comment.at > active {
          active := comment.at;
        }
      }
    }
    assert comments[..|comments|] == comments;
  }

  function CheckInCount(actions: seq<Action>): (n: nat) {
    if actions == [] then 0
    else CheckInCount(actions[..|actions| - 1]) + if actions[|actions| - 1].PostCheckIn? then 1 else 0
  }

  function ClearCount(actions: seq<Action>): (n: nat) {
    if actions == [] then 0
    else ClearCount(actions[..|actions| - 1]) + if actions[|actions| - 1].ClearAssignees? then 1 else 0
  }

  /** The body of the sweep's loop for one item. */
  method VisitItem(guild: set<Person>, item: Item, now: Time) returns (a: Action)
    ensures a == SweepItem(guild, item, now)
  {
    if item.archived || !item.isIssue {
      return Skip;
    }
    if ItemStatus(item.fields) != Some(STATUS_IN_PROGRESS) {
      return Skip;
    }
    var who := GuildMembers(guild, item.assignees);
    if who == [] || NUDGE_HOLD_LABEL in item.labels || item.openPr {
      return Skip;
    }
    var since := LatestAssignment(item.assignments, who[0]);
    if since.None? {
      return NoAssignmentEvent;
    }
    var active, checkIn := ScanComments(item.comments, who[0], since.value);
    if checkIn.None? || checkIn.value < active {
      return if DaysBetween(active, now) < CHECK_IN_AFTER_DAYS then Skip else PostCheckIn(who[0]);
    }
    return if DaysBetween(checkIn.value, now) < AUTO_CLEAR_AFTER_DAYS then Skip else ClearAssignees(who);
  }

  lemma CountsAppend(actions: seq<Action>, a: Action)
    ensures CheckInCount(actions + [a]) == CheckInCount(actions) + if a.PostCheckIn? then 1 else 0
    ensures ClearCount(actions + [a]) == ClearCount(actions) + if a.ClearAssignees? then 1 else 0
  {
    assert (actions + [a])[..|actions|] == actions;
  }

  /** The sweep over the whole board, with its two counters; a missing assignment event aborts it. */
  method RunStale(guild: set<Person>, items: seq<Item>, now: Time)
      returns (actions: seq<Action>, checkedIn: nat, cleared: nat)
    ensures |actions| <= |items|
    ensures forall i :: 0 <= i < |actions| ==> actions[i] == SweepItem(guild, items[i], now)
    ensures |actions| < |items| ==> SweepItem(guild, items[|actions|], now) == NoAssignmentEvent
    ensures NoAssignmentEvent !in actions
    ensures checkedIn == CheckInCount(actions) && cleared == ClearCount(actions)
  {
    actions, checkedIn, cleared := [], 0, 0;
    for i := 0 to |items|
      invariant |actions| == i && NoAssignmentEvent !in actions
      invariant forall k :: 0 <= k < i ==> actions[k] == SweepItem(guild, items[k], now)
      invariant checkedIn == CheckInCount(actions) && cleared == ClearCount(actions)
    {
      var action := VisitItem(guild, items[i], now);
      CountsAppend(actions, action);
      match action {
        case NoAssignmentEvent => return;
        case PostCheckIn(_) => checkedIn := checkedIn + 1;
        case ClearAssignees(_) => cleared := cleared + 1;
        case Skip =>
      }
      actions := actions + [action];
    }
  }

  // ---- Runs over one issue -------------------------------------------------

  datatype Clear = Clear(who: seq<Person>, at: Time)

  /** An issue's own history; `clock` is the time of the last event. */
  datatype Issue = Issue(
    clock: Time, assignees: seq<Person>, assignments: seq<Assignment>, comments: seq<Comment>, clears: seq<Clear>)

  /** What else the board says about the issue when a sweep reads it. */
  datatype Surroundings = Surroundings(
    archived: bool, isIssue: bool, fields: seq<(string, string)>, labels: seq<string>, openPr: bool)

  /** A sweep with clock `now` acts on this issue at `at`, no earlier. */
  datatype Event =
    | Assigned(who: Person, at: Time)
    | Unassigned(who: Person, at: Time)
    | Commented(who: Person, at: Time)
    | Swept(now: Time, at: Time, around: Surroundings)

  function Without(people: seq<Person>, gone: seq<Person>): (r: seq<Person>)
    ensures forall p :: p in r <==> p in people && p !in gone
  {
    if people == [] then []
    else (if people[0] in gone then [] else [people[0]]) + Without(people[1..], gone)
  }

  function AsItem(s: Issue, a: Surroundings): (item: Item) {
    Item(a.archived, a.isIssue, a.fields, s.assignees, a.labels, a.openPr, s.assignments, s.comments)
  }

  function NewIssue(created: Time): (s: Issue) {
    Issue(created, [], [], [], [])
  }

  function Step(guild: set<Person>, s: Issue, e: Event): (r: Issue) {
    match e
    case Assigned(who, at) =>
      s.(clock := at, assignees := s.assignees + [who], assignments := s.assignments + [Assignment(who, at)])
    case Unassigned(who, at) => s.(clock := at, assignees := Without(s.assignees, [who]))
    case Commented(who, at) => s.(clock := at, comments := s.comments + [Plain(who, at)])
    case Swept(now, at, around) =>
      match SweepItem(guild, AsItem(s, around), now)
      case PostCheckIn(who) => s.(clock := at, comments := s.comments + [CheckIn(who, at)])
      case ClearAssignees(who) =>
        s.(clock := at, assignees := Without(s.assignees, who), clears := s.clears + [Clear(who, at)])
      case _ => s.(clock := at)
  }

  /** Event times are distinct and increasing; a sweep acts no earlier than its clock. */
  predicate Timely(s: Issue, e: Event) {
    e.at > s.clock && (e.Swept? ==> e.now <= e.at)
  }

  function After(guild: set<Person>, s: Issue, run: seq<Event>): (r: Issue)
    decreases |run|
  {
    if run == [] then s else After(guild, Step(guild, s, run[0]), run[1..])
  }

  ghost predicate TimelyRun(guild: set<Person>, s: Issue, run: seq<Event>)
    decreases |run|
  {
    run == [] || (Timely(s, run[0]) && TimelyRun(guild, Step(guild, s, run[0]), run[1..]))
  }

  /** No other guild member is assigned. */
  ghost predicate OnlyGuildAssignee(guild: set<Person>, s: Issue, who: Person) {
    forall p :: p in s.assignees && p in guild ==> p == who
  }

  /** A guild member is only assigned while no other guild member is. */
  ghost predicate SingleGuildAssignee(guild: set<Person>, s: Issue, run: seq<Event>)
    decreases |run|
  {
    run == [] ||
    (&& (run[0].Assigned? && run[0].who in guild ==> OnlyGuildAssignee(guild, s, run[0].who))
     && SingleGuildAssignee(guild, Step(guild, s, run[0]), run[1..]))
  }

  // ---- Activity ------------------------------------------------------------

  /** This person was assigned, or commented, at this time. */
  ghost predicate ActiveAt(s: Issue, who: Person, t: Time) {
    Assignment(who, t) in s.assignments || Plain(who, t) in s.comments
  }

  lemma {:induction false} LatestAssignmentIsMax(assignments: seq<Assignment>, who: Person)
    ensures var t := LatestAssignment(assignments, who);
            && (t.Some? ==> Assignment(who, t.value) in assignments)
            && forall a :: a in assignments && a.who == who ==> t.Some? && a.at <= t.value
  {
    if assignments != [] {
      LatestAssignmentIsMax(assignments[..|assignments| - 1], who);
      assert assignments == assignments[..|assignments| - 1] + [assignments[|assignments| - 1]];
    }
  }

  lemma {:induction false} LatestActivityIsMax(comments: seq<Comment>, who: Person, t: Time)
    ensures var r := LatestActivity(comments, who, t);
            && (r == t || Plain(who, r) in comments)
            && forall c :: c in comments && c.Plain? && c.author == who ==> c.at <= r
  {
    if comments != [] {
      LatestActivityIsMax(comments[..|comments| - 1], who, t);
      assert comments == comments[..|comments| - 1] + [comments[|comments| - 1]];
    }
  }

  lemma {:induction false} LatestCheckInIsMax(comments: seq<Comment>)
    ensures var t := LatestCheckIn(comments);
            && (t.Some? ==> exists who :: CheckIn(who, t.value) in comments)
            && forall c :: c in comments && c.CheckIn? ==> t.Some? && c.at <= t.value
  {
    if comments != [] {
      LatestCheckInIsMax(comments[..|comments| - 1]);
      var last := comments[|comments| - 1];
      assert comments == comments[..|comments| - 1] + [last];
      if last.CheckIn? {
        assert CheckIn(last.assignee, last.at) in comments;
      }
    }
  }

  /** The measured time is the person's last activity, over assignments and comments. */
  lemma MeasuredActivity(s: Issue, who: Person)
    requires LatestAssignment(s.assignments, who).Some?
    ensures var t := LatestActivity(s.comments, who, LatestAssignment(s.assignments, who).value);
            ActiveAt(s, who, t) && forall u :: ActiveAt(s, who, u) ==> u <= t
  {
    LatestAssignmentIsMax(s.assignments, who);
    LatestActivityIsMax(s.comments, who, LatestAssignment(s.assignments, who).value);
  }

  // ---- What every run keeps ------------------------------------------------

  ghost predicate TimesInOrder(s: Issue) {
    && (forall a :: a in s.assignments ==> a.at <= s.clock)
    && (forall c :: c in s.comments ==> c.at <= s.clock)
    && (forall c :: c in s.clears ==> c.at <= s.clock)
  }

  /** The last activity of someone who has been assigned. */
  function LastActive(s: Issue, who: Person): (t: Time)
    requires LatestAssignment(s.assignments, who).Some?
  {
    LatestActivity(s.comments, who, LatestAssignment(s.assignments, who).value)
  }

  /** A check-in that is still unanswered was posted after 14 quiet days. */
  ghost predicate QuietBeforeCheckIn(s: Issue, who: Person) {
    && LatestAssignment(s.assignments, who).Some?
    && var c := LatestCheckIn(s.comments);
       c.Some? && c.value >= LastActive(s, who) ==> LastActive(s, who) + CHECK_IN_AFTER_DAYS * DAY <= c.value
  }

  ghost predicate AssigneesOk(guild: set<Person>, s: Issue) {
    && (forall p, q :: p in s.assignees && q in s.assignees && p in guild && q in guild ==> p == q)
    && (forall p :: p in s.assignees && p in guild ==> QuietBeforeCheckIn(s, p))
  }

  /** Everyone cleared had been inactive for 21 days. */
  ghost predicate ClearsOk(s: Issue) {
    forall c, p, t :: c in s.clears && p in c.who && ActiveAt(s, p, t) && t <= c.at ==>
      t + (CHECK_IN_AFTER_DAYS + AUTO_CLEAR_AFTER_DAYS) * DAY <= c.at
  }

  /** The person nudged had become active after the earlier check-in and then quiet for 14 days. */
  ghost predicate RenewedActivity(s: Issue, earlier: Time, later: Comment)
    requires later.CheckIn?
  {
    exists t :: ActiveAt(s, later.assignee, t) && earlier < t && t + CHECK_IN_AFTER_DAYS * DAY <= later.at
  }

  ghost predicate CheckInsOk(s: Issue) {
    forall i, j :: 0 <= i < j < |s.comments| && s.comments[i].CheckIn? && s.comments[j].CheckIn? ==>
      RenewedActivity(s, s.comments[i].at, s.comments[j])
  }

  /** Whoever is assigned has an assignment event. */
  ghost predicate AssignmentsKnown(s: Issue) {
    forall p :: p in s.assignees ==> LatestAssignment(s.assignments, p).Some?
  }

  /** The assignee that was measured, the first one cleared, had been inactive for a week. */
  ghost predicate MeasuredWeek(s: Issue) {
    forall c :: c in s.clears ==>
      c.who != [] && forall t :: ActiveAt(s, c.who[0], t) && t <= c.at ==> t + AUTO_CLEAR_AFTER_DAYS * DAY <= c.at
  }

  /** Holds in every run. */
  ghost predicate Base(s: Issue) {
    TimesInOrder(s) && AssignmentsKnown(s) && CheckInsOk(s) && MeasuredWeek(s)
  }

  /** Holds in every run with one guild assignee at a time. */
  ghost predicate Inv(guild: set<Person>, s: Issue) {
    Base(s) && AssigneesOk(guild, s) && ClearsOk(s)
  }

  /** Nobody has been active after the clock, and every check-in is behind it too. */
  lemma BehindClock(s: Issue, who: Person)
    requires TimesInOrder(s)
    ensures LatestCheckIn(s.comments).Some? ==> LatestCheckIn(s.comments).value <= s.clock
    ensures LatestAssignment(s.assignments, who).Some? ==> LastActive(s, who) <= s.clock
  {
    LatestCheckInIsMax(s.comments);
    if LatestAssignment(s.assignments, who).Some? {
      MeasuredActivity(s, who);
    }
  }

  lemma AssignmentAppend(assignments: seq<Assignment>, a: Assignment, who: Person)
    ensures LatestAssignment(assignments + [a], who)
            == if a.who == who then Later(LatestAssignment(assignments, who), a.at) else LatestAssignment(assignments, who)
  {
    assert (assignments + [a])[..|assignments|] == assignments;
  }

  lemma ActivityAppend(comments: seq<Comment>, c: Comment, who: Person, t: Time)
    ensures var before := LatestActivity(comments, who, t);
            LatestActivity(comments + [c], who, t)
            == if c.Plain? && c.author == who && c.at > before then c.at else before
  {
    assert (comments + [c])[..|comments|] == comments;
  }

  lemma CheckInAppend(comments: seq<Comment>, c: Comment)
    ensures LatestCheckIn(comments + [c])
            == if c.CheckIn? then Later(LatestCheckIn(comments), c.at) else LatestCheckIn(comments)
  {
    assert (comments + [c])[..|comments|] == comments;
  }

  /** New activity lies after every clear that has been made. */
  lemma KeepsClears(s: Issue, r: Issue)
    requires TimesInOrder(s) && ClearsOk(s) && r.clears == s.clears
    requires forall p, t :: ActiveAt(r, p, t) ==> ActiveAt(s, p, t) || t > s.clock
    ensures ClearsOk(r)
  {
  }

  lemma KeepsCheckIns(s: Issue, r: Issue)
    requires CheckInsOk(s) && s.comments <= r.comments && s.assignments <= r.assignments
    requires forall k :: |s.comments| <= k < |r.comments| ==> !r.comments[k].CheckIn?
    ensures CheckInsOk(r)
  {
    forall i, j | 0 <= i < j < |r.comments| && r.comments[i].CheckIn? && r.comments[j].CheckIn?
      ensures RenewedActivity(r, r.comments[i].at, r.comments[j])
    {
      assert s.comments[i] == r.comments[i] && s.comments[j] == r.comments[j];
      assert RenewedActivity(s, s.comments[i].at, s.comments[j]);
      KeepsRenewed(s, r, s.comments[i].at, s.comments[j]);
    }
  }

  lemma KeepsRenewed(s: Issue, r: Issue, earlier: Time, later: Comment)
    requires later.CheckIn? && RenewedActivity(s, earlier, later)
    requires s.comments <= r.comments && s.assignments <= r.assignments
    ensures RenewedActivity(r, earlier, later)
  {
    var t :| ActiveAt(s, later.assignee, t) && earlier < t && t + CHECK_IN_AFTER_DAYS * DAY <= later.at;
    assert ActiveAt(r, later.assignee, t);
  }

  lemma KeepsWeek(s: Issue, r: Issue)
    requires TimesInOrder(s) && MeasuredWeek(s) && r.clears == s.clears
    requires forall p, t :: ActiveAt(r, p, t) ==> ActiveAt(s, p, t) || t > s.clock
    ensures MeasuredWeek(r)
  {
  }

  lemma AssignedBase(guild: set<Person>, s: Issue, who: Person, at: Time)
    requires Base(s) && at > s.clock
    ensures Base(Step(guild, s, Assigned(who, at)))
  {
    var r := Step(guild, s, Assigned(who, at));
    KeepsCheckIns(s, r);
    KeepsWeek(s, r);
    forall p | p in r.assignees
      ensures LatestAssignment(r.assignments, p).Some?
    {
      AssignmentAppend(s.assignments, Assignment(who, at), p);
      assert p != who ==> p in s.assignees;
    }
  }

  lemma CommentedBase(guild: set<Person>, s: Issue, who: Person, at: Time)
    requires Base(s) && at > s.clock
    ensures Base(Step(guild, s, Commented(who, at)))
  {
    var r := Step(guild, s, Commented(who, at));
    KeepsCheckIns(s, r);
    KeepsWeek(s, r);
  }

  /** Assignees may leave and time may pass. */
  lemma IdleBase(s: Issue, r: Issue)
    requires Base(s) && r.clock > s.clock && r.assignments == s.assignments && r.comments == s.comments
    requires r.clears == s.clears && forall p :: p in r.assignees ==> p in s.assignees
    ensures Base(r)
  {
    KeepsCheckIns(s, r);
    assert forall p, t :: ActiveAt(r, p, t) <==> ActiveAt(s, p, t);
    KeepsWeek(s, r);
  }

  /** What the sweep measured before it posts a check-in. */
  ghost predicate MayNudge(s: Issue, p: Person, now: Time) {
    && LatestAssignment(s.assignments, p).Some?
    && (LatestCheckIn(s.comments).None? || LatestCheckIn(s.comments).value < LastActive(s, p))
    && DaysBetween(LastActive(s, p), now) >= CHECK_IN_AFTER_DAYS
  }

  /** What it measured before it clears. */
  ghost predicate MayClear(s: Issue, p: Person, now: Time) {
    && LatestAssignment(s.assignments, p).Some?
    && LatestCheckIn(s.comments).Some? && LatestCheckIn(s.comments).value >= LastActive(s, p)
    && DaysBetween(LatestCheckIn(s.comments).value, now) >= AUTO_CLEAR_AFTER_DAYS
  }

  /** The sweep measures the first guild assignee. */
  lemma SweptMeasures(guild: set<Person>, s: Issue, now: Time, around: Surroundings)
    ensures var a := SweepItem(guild, AsItem(s, around), now);
            var who := GuildMembers(guild, s.assignees);
            && (a.PostCheckIn? ==> who != [] && a.assignee == who[0] && MayNudge(s, who[0], now))
            && (a.ClearAssignees? ==> who != [] && a.who == who && MayClear(s, who[0], now))
  {
  }

  lemma CheckInBase(s: Issue, p: Person, now: Time, at: Time)
    requires Base(s) && at > s.clock && now <= at && MayNudge(s, p, now)
    ensures Base(s.(clock := at, comments := s.comments + [CheckIn(p, at)]))
  {
    var r := s.(clock := at, comments := s.comments + [CheckIn(p, at)]);
    MeasuredActivity(s, p);
    LatestCheckInIsMax(s.comments);
    assert ActiveAt(r, p, LastActive(s, p));
    forall i, j | 0 <= i < j < |r.comments| && r.comments[i].CheckIn? && r.comments[j].CheckIn?
      ensures RenewedActivity(r, r.comments[i].at, r.comments[j])
    {
      if j < |s.comments| {
        assert RenewedActivity(s, s.comments[i].at, s.comments[j]);
        KeepsRenewed(s, r, s.comments[i].at, s.comments[j]);
      } else {
        assert s.comments[i] in s.comments;
      }
    }
    assert forall q, t :: ActiveAt(r, q, t) <==> ActiveAt(s, q, t);
    KeepsWeek(s, r);
  }

  lemma ClearBase(s: Issue, who: seq<Person>, now: Time, at: Time)
    requires Base(s) && at > s.clock && now <= at && who != [] && MayClear(s, who[0], now)
    ensures Base(s.(clock := at, assignees := Without(s.assignees, who), clears := s.clears + [Clear(who, at)]))
  {
    var r := s.(clock := at, assignees := Without(s.assignees, who), clears := s.clears + [Clear(who, at)]);
    KeepsCheckIns(s, r);
    MeasuredActivity(s, who[0]);
    assert forall q, t :: ActiveAt(r, q, t) <==> ActiveAt(s, q, t);
  }

  lemma StepBase(guild: set<Person>, s: Issue, e: Event)
    requires Base(s) && Timely(s, e)
    ensures Base(Step(guild, s, e))
  {
    match e
    case Assigned(who, at) => AssignedBase(guild, s, who, at);
    case Unassigned(who, at) => IdleBase(s, Step(guild, s, e));
    case Commented(who, at) => CommentedBase(guild, s, who, at);
    case Swept(now, at, around) =>
      SweptMeasures(guild, s, now, around);
      match SweepItem(guild, AsItem(s, around), now)
      case PostCheckIn(p) => CheckInBase(s, p, now, at);
      case ClearAssignees(who) => ClearBase(s, who, now, at);
      case _ => IdleBase(s, Step(guild, s, e));
  }

  lemma {:induction false} RunBase(guild: set<Person>, s: Issue, run: seq<Event>)
    requires Base(s) && TimelyRun(guild, s, run)
    ensures Base(After(guild, s, run))
    decreases |run|
  {
    if run != [] {
      StepBase(guild, s, run[0]);
      RunBase(guild, Step(guild, s, run[0]), run[1..]);
    }
  }

  // ---- With one guild assignee at a time -------------------------------------

  /** What the single guild assignee adds to the base. */
  ghost predicate Protected(guild: set<Person>, s: Issue) {
    AssigneesOk(guild, s) && ClearsOk(s)
  }

  lemma AssignedKeeps(guild: set<Person>, s: Issue, who: Person, at: Time)
    requires Inv(guild, s) && at > s.clock
    requires who in guild ==> OnlyGuildAssignee(guild, s, who)
    ensures Protected(guild, Step(guild, s, Assigned(who, at)))
  {
    var r := Step(guild, s, Assigned(who, at));
    KeepsClears(s, r);
    forall p | p in r.assignees && p in guild
      ensures QuietBeforeCheckIn(r, p)
    {
      AssignmentAppend(s.assignments, Assignment(who, at), p);
      BehindClock(s, p);
      if p != who {
        assert p in s.assignees;
      } else {
        LatestAssignmentIsMax(s.assignments, p);
      }
    }
  }

  /** Assignees may leave and time may pass. */
  lemma IdleKeeps(guild: set<Person>, s: Issue, r: Issue)
    requires Inv(guild, s) && r.assignments == s.assignments && r.comments == s.comments && r.clears == s.clears
    requires forall p :: p in r.assignees ==> p in s.assignees
    ensures Protected(guild, r)
  {
    assert forall p, t :: ActiveAt(r, p, t) <==> ActiveAt(s, p, t);
    forall p | p in r.assignees && p in guild
      ensures QuietBeforeCheckIn(r, p)
    {
      assert QuietBeforeCheckIn(s, p);
    }
  }

  lemma CommentedKeeps(guild: set<Person>, s: Issue, who: Person, at: Time)
    requires Inv(guild, s) && at > s.clock
    ensures Protected(guild, Step(guild, s, Commented(who, at)))
  {
    var r := Step(guild, s, Commented(who, at));
    KeepsClears(s, r);
    forall p | p in r.assignees && p in guild
      ensures QuietBeforeCheckIn(r, p)
    {
      assert QuietBeforeCheckIn(s, p);
      BehindClock(s, p);
      ActivityAppend(s.comments, Plain(who, at), p, LatestAssignment(s.assignments, p).value);
      CheckInAppend(s.comments, Plain(who, at));
    }
  }

  lemma CheckInKeeps(guild: set<Person>, s: Issue, p: Person, now: Time, at: Time)
    requires Inv(guild, s) && at > s.clock && now <= at && MayNudge(s, p, now)
    requires OnlyGuildAssignee(guild, s, p)
    ensures Protected(guild, s.(clock := at, comments := s.comments + [CheckIn(p, at)]))
  {
    var c := CheckIn(p, at);
    var r := s.(clock := at, comments := s.comments + [c]);
    BehindClock(s, p);
    ActivityAppend(s.comments, c, p, LatestAssignment(s.assignments, p).value);
    CheckInAppend(s.comments, c);
    assert forall q, t :: ActiveAt(r, q, t) <==> ActiveAt(s, q, t);
  }

  lemma ClearKeeps(guild: set<Person>, s: Issue, p: Person, who: seq<Person>, now: Time, at: Time)
    requires Inv(guild, s) && at > s.clock && now <= at && MayClear(s, p, now)
    requires QuietBeforeCheckIn(s, p) && forall q :: q in who ==> q == p
    ensures Protected(guild, s.(clock := at, assignees := Without(s.assignees, who), clears := s.clears + [Clear(who, at)]))
  {
    var r := s.(clock := at, assignees := Without(s.assignees, who), clears := s.clears + [Clear(who, at)]);
    MeasuredActivity(s, p);
    assert forall q, t :: ActiveAt(r, q, t) <==> ActiveAt(s, q, t);
    forall q | q in r.assignees && q in guild
      ensures QuietBeforeCheckIn(r, q)
    {
      assert QuietBeforeCheckIn(s, q);
    }
  }

  lemma SweptKeeps(guild: set<Person>, s: Issue, now: Time, at: Time, around: Surroundings)
    requires Inv(guild, s) && at > s.clock && now <= at
    ensures Protected(guild, Step(guild, s, Swept(now, at, around)))
  {
    var who := GuildMembers(guild, s.assignees);
    SweptMeasures(guild, s, now, around);
    match SweepItem(guild, AsItem(s, around), now)
    case PostCheckIn(p) =>
      assert p in who;
      CheckInKeeps(guild, s, p, now, at);
    case ClearAssignees(_) =>
      assert who[0] in who;
      ClearKeeps(guild, s, who[0], who, now, at);
    case _ => IdleKeeps(guild, s, Step(guild, s, Swept(now, at, around)));
  }

  lemma StepKeeps(guild: set<Person>, s: Issue, e: Event)
    requires Inv(guild, s) && Timely(s, e)
    requires e.Assigned? && e.who in guild ==> OnlyGuildAssignee(guild, s, e.who)
    ensures Inv(guild, Step(guild, s, e))
  {
    StepBase(guild, s, e);
    match e
    case Assigned(who, at) => AssignedKeeps(guild, s, who, at);
    case Unassigned(who, at) => IdleKeeps(guild, s, Step(guild, s, e));
    case Commented(who, at) => CommentedKeeps(guild, s, who, at);
    case Swept(now, at, around) => SweptKeeps(guild, s, now, at, around);
  }

  lemma {:induction false} RunKeeps(guild: set<Person>, s: Issue, run: seq<Event>)
    requires Inv(guild, s) && TimelyRun(guild, s, run) && SingleGuildAssignee(guild, s, run)
    ensures Inv(guild, After(guild, s, run))
    decreases |run|
  {
    if run != [] {
      StepKeeps(guild, s, run[0]);
      RunKeeps(guild, Step(guild, s, run[0]), run[1..]);
    }
  }

  // ---- Results -------------------------------------------------------------

  /** In every run, an assignment is cleared only 21 days or more after the assignee's last activity. */
  lemma ClearedOnlyAfterQuiet(guild: set<Person>, created: Time, run: seq<Event>, c: Clear, p: Person, t: Time)
    requires TimelyRun(guild, NewIssue(created), run) && SingleGuildAssignee(guild, NewIssue(created), run)
    requires var s := After(guild, NewIssue(created), run);
             c in s.clears && p in c.who && ActiveAt(s, p, t) && t <= c.at
    ensures t + 21 * DAY <= c.at
  {
    RunKeeps(guild, NewIssue(created), run);
  }

  /** In every run, whoever is assigned, two check-ins are separated by activity of the one nudged, 14 days or more before the second. */
  lemma CheckInsFollowActivity(guild: set<Person>, created: Time, run: seq<Event>, i: nat, j: nat)
    requires TimelyRun(guild, NewIssue(created), run)
    requires var cs := After(guild, NewIssue(created), run).comments;
             i < j < |cs| && cs[i].CheckIn? && cs[j].CheckIn?
    ensures var s := After(guild, NewIssue(created), run);
            RenewedActivity(s, s.comments[i].at, s.comments[j])
  {
    RunBase(guild, NewIssue(created), run);
  }

  /** In every run, whoever is assigned, the first of those cleared had been inactive for 7 days. */
  lemma FirstClearedAfterWeek(guild: set<Person>, created: Time, run: seq<Event>)
    requires TimelyRun(guild, NewIssue(created), run)
    ensures MeasuredWeek(After(guild, NewIssue(created), run))
  {
    RunBase(guild, NewIssue(created), run);
  }

  /**
   Silence is acted on: after a sweep past 14 quiet days and another one 7 days after
   its check-in, the assignee is cleared, provided the issue stays eligible.
   */
  lemma SilenceIsCleared(guild: set<Person>, s: Issue, p: Person, first: Event, second: Event)
    requires Inv(guild, s) && p in s.assignees && p in guild
    requires first.Swept? && second.Swept? && Timely(s, first) && Timely(Step(guild, s, first), second)
    requires Eligible(guild, AsItem(s, first.around)) && Eligible(guild, AsItem(s, second.around))
    requires LatestCheckIn(s.comments).None? || LatestCheckIn(s.comments).value < LastActive(s, p)
    requires LatestAssignment(s.assignments, p).Some? && first.now >= LastActive(s, p) + 14 * DAY
    requires second.now >= first.at + 7 * DAY
    ensures p !in Step(guild, Step(guild, s, first), second).assignees
  {
    assert GuildMembers(guild, s.assignees)[0] in GuildMembers(guild, s.assignees);
    BehindClock(s, p);
    ActivityAppend(s.comments, CheckIn(p, first.at), p, LatestAssignment(s.assignments, p).value);
    CheckInAppend(s.comments, CheckIn(p, first.at));
    var mid := Step(guild, s, first);
    assert mid.comments == s.comments + [CheckIn(p, first.at)];
    assert p in GuildMembers(guild, s.assignees) && p in GuildMembers(guild, mid.assignees);
  }

  // ---- With two guild assignees ----------------------------------------------

  /** Somebody was cleared less than 21 days after their last activity. */
  ghost predicate ClearedEarly(s: Issue) {
    !ClearsOk(s)
  }

  /** A comment by somebody else leaves the measurement of `p` as it is. */
  lemma OthersComment(guild: set<Person>, s: Issue, p: Person, q: Person, at: Time)
    requires p != q && LatestAssignment(s.assignments, p).Some?
    ensures var r := Step(guild, s, Commented(q, at));
            LastActive(r, p) == LastActive(s, p) && LatestCheckIn(r.comments) == LatestCheckIn(s.comments)
  {
    ActivityAppend(s.comments, Plain(q, at), p, LatestAssignment(s.assignments, p).value);
    CheckInAppend(s.comments, Plain(q, at));
  }

  /** The second guild assignee comments, and is cleared a second later for the silence of the first. */
  lemma ClearSecond(guild: set<Person>, s: Issue, q: Person, around: Surroundings, at: Time) returns (rest: seq<Event>)
    requires Base(s) && at > s.clock && InProgress(AsItem(s, around))
    requires var who := GuildMembers(guild, s.assignees);
             && who != [] && q in who && q != who[0]
             && LatestCheckIn(s.comments).Some? && LatestCheckIn(s.comments).value >= LastActive(s, who[0])
             && LatestCheckIn(s.comments).value + AUTO_CLEAR_AFTER_DAYS * DAY <= at
    ensures TimelyRun(guild, s, rest) && SingleGuildAssignee(guild, s, rest)
    ensures ClearedEarly(After(guild, s, rest))
  {
    var p := GuildMembers(guild, s.assignees)[0];
    var e1, e2 := Commented(q, at), Swept(at + 1, at + 1, around);
    var s1 := Step(guild, s, e1);
    OthersComment(guild, s, p, q, at);
    var s2 := Step(guild, s1, e2);
    assert SweepItem(guild, AsItem(s1, around), at + 1) == ClearAssignees(GuildMembers(guild, s.assignees));
    var c := s2.clears[|s1.clears|];
    assert c == Clear(GuildMembers(guild, s.assignees), at + 1) && c in s2.clears;
    assert s1.comments[|s.comments|] == Plain(q, at);
    assert ActiveAt(s2, q, at);
    rest := [e1, e2];
    assert rest[1..] == [e2] && [e2][1..] == [];
    assert After(guild, s1, [e2]) == s2;
  }

  /** Without an outstanding check-in the first guild assignee is nudged, and the nudge is then outstanding. */
  lemma NudgeFirst(guild: set<Person>, s: Issue, around: Surroundings, at: Time)
    requires Base(s) && InProgress(AsItem(s, around)) && at >= s.clock + CHECK_IN_AFTER_DAYS * DAY
    requires var who := GuildMembers(guild, s.assignees);
             who != [] && (LatestCheckIn(s.comments).None? || LatestCheckIn(s.comments).value < LastActive(s, who[0]))
    ensures var p := GuildMembers(guild, s.assignees)[0];
            var r := Step(guild, s, Swept(at, at, around));
            && r.assignees == s.assignees && r.clock == at
            && LatestAssignment(r.assignments, p).Some? && LatestCheckIn(r.comments) == Some(at) && LastActive(r, p) <= at
  {
    var p := GuildMembers(guild, s.assignees)[0];
    BehindClock(s, p);
    ActivityAppend(s.comments, CheckIn(p, at), p, LatestAssignment(s.assignments, p).value);
    CheckInAppend(s.comments, CheckIn(p, at));
  }

  /** From any state with a second guild assignee on an issue in progress. */
  lemma SecondCanBeCleared(guild: set<Person>, s: Issue, q: Person, around: Surroundings) returns (rest: seq<Event>)
    requires Base(s) && InProgress(AsItem(s, around))
    requires var who := GuildMembers(guild, s.assignees); who != [] && q in who && q != who[0]
    ensures TimelyRun(guild, s, rest) && SingleGuildAssignee(guild, s, rest)
    ensures ClearedEarly(After(guild, s, rest))
  {
    var p := GuildMembers(guild, s.assignees)[0];
    var at := s.clock + 15 * DAY;
    BehindClock(s, p);
    if LatestCheckIn(s.comments).None? || LatestCheckIn(s.comments).value < LastActive(s, p) {
      var e := Swept(at, at, around);
      NudgeFirst(guild, s, around, at);
      StepBase(guild, s, e);
      var more := ClearSecond(guild, Step(guild, s, e), q, around, at + 7 * DAY);
      rest := [e] + more;
      assert rest[1..] == more;
    } else {
      rest := ClearSecond(guild, s, q, around, at);
    }
  }

  /**
   After any run that ends with two guild assignees on an issue in progress, one of them can be
   cleared less than 21 days after their last activity.
   */
  lemma SecondAssigneeUnprotected(guild: set<Person>, created: Time, run: seq<Event>, a: Person, b: Person, around: Surroundings)
      returns (rest: seq<Event>)
    requires TimelyRun(guild, NewIssue(created), run)
    requires var s := After(guild, NewIssue(created), run);
             && a != b && a in guild && b in guild && a in s.assignees && b in s.assignees
             && InProgress(AsItem(s, around))
    ensures var s := After(guild, NewIssue(created), run);
            TimelyRun(guild, s, rest) && SingleGuildAssignee(guild, s, rest) && ClearedEarly(After(guild, s, rest))
  {
    RunBase(guild, NewIssue(created), run);
    var s := After(guild, NewIssue(created), run);
    var who := GuildMembers(guild, s.assignees);
    assert a in who && b in who;
    rest := SecondCanBeCleared(guild, s, if a == who[0] then b else a, around);
  }

  /** However it goes on with one guild assignee at a time, nobody is cleared early. */
  ghost predicate SafeAssignment(guild: set<Person>, s: Issue) {
    forall rest :: TimelyRun(guild, s, rest) && SingleGuildAssignee(guild, s, rest) ==> !ClearedEarly(After(guild, s, rest))
  }

  /** After a run with one guild assignee at a time, assigning a guild member is safe exactly when no other is assigned. */
  lemma AssignmentSafeIff(guild: set<Person>, created: Time, run: seq<Event>, q: Person, at: Time)
    requires TimelyRun(guild, NewIssue(created), run) && SingleGuildAssignee(guild, NewIssue(created), run)
    requires q in guild && at > After(guild, NewIssue(created), run).clock
    ensures var s := After(guild, NewIssue(created), run);
            SafeAssignment(guild, Step(guild, s, Assigned(q, at))) <==> OnlyGuildAssignee(guild, s, q)
  {
    RunKeeps(guild, NewIssue(created), run);
    var s := After(guild, NewIssue(created), run);
    var r := Step(guild, s, Assigned(q, at));
    StepBase(guild, s, Assigned(q, at));
    if OnlyGuildAssignee(guild, s, q) {
      AssignedKeeps(guild, s, q, at);
      forall rest | TimelyRun(guild, r, rest) && SingleGuildAssignee(guild, r, rest)
        ensures !ClearedEarly(After(guild, r, rest))
      {
        RunKeeps(guild, r, rest);
      }
    } else {
      var p :| p in s.assignees && p in guild && p != q;
      var who := GuildMembers(guild, r.assignees);
      assert p in who && q in who;
      var around := Surroundings(false, true, [(STATUS_FIELD, STATUS_IN_PROGRESS)], [], false);
      var rest := SecondCanBeCleared(guild, r, if p == who[0] then q else p, around);
    }
  }
}
