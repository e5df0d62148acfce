/**
 What every run of the stale draft sweep keeps (script/github-pr-cleanup.py): the history of one
 pull request under pushes, draft transitions, comments, closings, reopenings and sweeps, some of
 which crash between their comment and the closing. A pushed commit carries its own timestamp.
 */
module PrSafety {
  import opened Prelude
  import opened PrCleanup

  // ---- Runs over one pull request ----------------------------------------------

  /** A push, with the timestamp of its last commit. */
  datatype Push = Push(stamp: Time, at: Time)

  /** A pull request with its whole history; `closings` are the times the sweep closed it. */
  datatype History = History(
    clock: Time, open: bool, draft: bool, created: Time, commits: seq<Push>, transitions: seq<Transition>,
    comments: seq<Comment>, closings: seq<Time>)

  /**
   A sweep with clock `now` acts at `at`, no earlier; when it `crashes` it posts its
   comment but never closes.
   */
  datatype Event =
    | Pushed(stamp: Time, at: Time)
    | Drafted(toDraft: bool, at: Time)
    | Commented(at: Time)
    | ClosedByHand(at: Time)
    | Reopened(at: Time)
    | Swept(now: Time, crashes: bool, at: Time)

  function Opened(created: Time, draft: bool): (h: History) {
    History(created, true, draft, created, [], [], [], [])
  }

  /** What the query shows of a history. */
  function View(h: History): (pr: PullRequest) {
    PullRequest(0, h.open, h.draft, h.created,
                if h.commits == [] then [] else [Commit(None, Some(h.commits[|h.commits| - 1].stamp))],
                if |h.transitions| <= TRANSITIONS_SHOWN then h.transitions
                else h.transitions[|h.transitions| - TRANSITIONS_SHOWN..])
  }

  function Posted(h: History, marker: Option<Marker>, at: Time): (r: History) {
    if marker.None? then h else h.(comments := h.comments + [Comment({marker.value}, at)])
  }

  /** The writes of one sweep on one pull request. */
  function Acted(h: History, action: Option<Action>, crashes: bool, at: Time): (r: History) {
    if action.None? then h
    else
      var posted := Posted(h, action.value.comment, at);
      if action.value.close && !crashes then posted.(open := false, closings := posted.closings + [at]) else posted
  }

  function Step(h: History, e: Event): (r: History) {
    match e
    case Pushed(stamp, at) => h.(clock := at, commits := h.commits + [Push(stamp, at)])
    case Drafted(toDraft, at) =>
      h.(clock := at, draft := toDraft, transitions := h.transitions + [Transition(toDraft, at)])
    case Commented(at) => h.(clock := at, comments := h.comments + [Comment({}, at)])
    case ClosedByHand(at) => h.(clock := at, open := false)
    case Reopened(at) => h.(clock := at, open := true)
    case Swept(now, crashes, at) => Acted(h.(clock := at), SweepPr(View(h), h.comments, now), crashes, at)
  }

  /** Event times increase, and a sweep acts no earlier than its clock. */
  predicate Timely(h: History, e: Event) {
    e.at > h.clock && (e.Swept? ==> e.now <= e.at)
  }

  function After(h: History, run: seq<Event>): (r: History)
    decreases |run|
  {
    if run == [] then h else After(Step(h, run[0]), run[1..])
  }

  ghost predicate TimelyRun(h: History, run: seq<Event>)
    decreases |run|
  {
    run == [] || (Timely(h, run[0]) && TimelyRun(Step(h, run[0]), run[1..]))
  }

  // ---- Activity ------------------------------------------------------------------

  /** When the pull request was opened, or moved into or out of draft. */
  function DraftTimes(h: History): (ts: set<Time>) {
    {h.created} + set t | t in h.transitions :: t.at
  }

  function PushTimes(h: History): (ts: set<Time>) {
    set p | p in h.commits :: p.at
  }

  /** All activity as the sweep measures it: pushes count at the timestamp of their commit. */
  function MeasuredTimes(h: History): (ts: set<Time>) {
    DraftTimes(h) + set p | p in h.commits :: p.stamp
  }

  /** The last of them. */
  function DraftStart(h: History): (t: Time) {
    if h.transitions == [] then h.created else h.transitions[|h.transitions| - 1].at
  }

  function LastPush(h: History): (t: Time) {
    if h.commits == [] then h.created else h.commits[|h.commits| - 1].at
  }

  /** What the sweep measures as the last activity of a draft. */
  function LastActivity(h: History): (t: Time) {
    if h.commits == [] then DraftStart(h) else Max(DraftStart(h), h.commits[|h.commits| - 1].stamp)
  }

  ghost predicate PushesIncreasing(ps: seq<Push>, after: Time, clock: Time) {
    && (forall i, j :: 0 <= i < j < |ps| ==> ps[i].at < ps[j].at)
    && (forall p :: p in ps ==> after < p.at <= clock)
  }

  ghost predicate TransitionsIncreasing(ts: seq<Transition>, after: Time, clock: Time) {
    && (forall i, j :: 0 <= i < j < |ts| ==> ts[i].at < ts[j].at)
    && (forall t :: t in ts ==> after < t.at <= clock)
  }

  ghost predicate InOrder(h: History) {
    && h.created <= h.clock
    && PushesIncreasing(h.commits, h.created, h.clock)
    && TransitionsIncreasing(h.transitions, h.created, h.clock)
  }

  /** It is open, and its latest draft transition, if any, was into draft. */
  predicate IsDraft(h: History) {
    h.open && h.draft && (h.transitions == [] || h.transitions[|h.transitions| - 1].toDraft)
  }

  /** The last draft transition and the last push are the greatest of their kind. */
  lemma LastAreLatest(h: History)
    requires InOrder(h)
    ensures DraftStart(h) in DraftTimes(h) && forall t :: t in DraftTimes(h) ==> t <= DraftStart(h)
    ensures LastPush(h) <= h.clock && forall t :: t in PushTimes(h) ==> t <= LastPush(h)
    ensures DraftStart(h) <= LastActivity(h) && LastActivity(h) in MeasuredTimes(h)
  {
    if h.transitions != [] {
      assert h.transitions[|h.transitions| - 1] in h.transitions;
    }
    if h.commits != [] {
      assert h.commits[|h.commits| - 1] in h.commits;
    }
  }

  lemma LatestIsLast(ts: seq<Transition>)
    requires ts != [] && forall i, j :: 0 <= i < j < |ts| ==> ts[i].at < ts[j].at
    ensures LatestTransition(ts) == ts[|ts| - 1]
  {
    var t := LatestTransition(ts);
    var i :| 0 <= i < |ts| && ts[i] == t;
    assert ts[|ts| - 1] in ts;
  }

  lemma ShownStart(h: History)
    requires InOrder(h)
    ensures CurrentDraftStartedAt(View(h)) == if IsDraft(h) then Some(DraftStart(h)) else None
  {
    if h.transitions != [] {
      var shown := View(h).transitions;
      assert shown != [] && shown[|shown| - 1] == h.transitions[|h.transitions| - 1];
      LatestIsLast(shown);
    }
  }

  /** The query shows enough to measure the last activity over the whole history. */
  lemma MeasuredActivity(h: History)
    requires InOrder(h)
    ensures LatestDraftActivityAt(View(h)) == if IsDraft(h) then Some(LastActivity(h)) else None
  {
    ShownStart(h);
  }

  /** The action of a sweep, in terms of the history. */
  function SweepOf(h: History, now: Time): (a: Option<Action>) {
    if IsDraft(h) && now - LastActivity(h) >= DRAFT_WARNING_AFTER then
      DraftAction(LastActivity(h), h.comments, now)
    else None
  }

  lemma SweepMeasures(h: History, now: Time)
    requires InOrder(h)
    ensures SweepPr(View(h), h.comments, now) == SweepOf(h, now)
    ensures forall crashes, at ::
              Step(h, Swept(now, crashes, at)) == Acted(h.(clock := at), SweepOf(h, now), crashes, at)
  {
    MeasuredActivity(h);
  }

  // ---- What the comments and closings of a history keep ----------------------------

  const WARN_QUIET: int := DRAFT_WARNING_AFTER
  const CLOSE_QUIET: int := DRAFT_WARNING_AFTER + DRAFT_CLOSE_AFTER_WARNING

  function QuietFor(marker: Marker): (d: int) {
    if marker == WarningMarker then WARN_QUIET else CLOSE_QUIET
  }

  /** There was activity after `earlier`, that long before `later`. */
  ghost predicate ActivityBetween(times: set<Time>, earlier: Time, later: Time, quiet: int) {
    exists t :: t in times && earlier < t && t + quiet <= later
  }

  /** Two comments with the marker belong to different activity periods. */
  ghost predicate OncePerPeriod(comments: seq<Comment>, times: set<Time>, marker: Marker, quiet: int) {
    forall i, j :: 0 <= i < j < |comments| && marker in comments[i].marks && marker in comments[j].marks ==>
      ActivityBetween(times, comments[i].at, comments[j].at, quiet)
  }

  /** No comment with the marker from `active` on was posted before `due`. */
  ghost predicate NotBefore(comments: seq<Comment>, active: Time, marker: Marker, due: Time) {
    forall c :: c in comments && Marked(c, marker, active) ==> due <= c.at
  }

  /** Every closing lies that long after all activity before it. */
  ghost predicate ClosingsOk(closings: seq<Time>, times: set<Time>, quiet: int) {
    forall c, t :: c in closings && t in times && t <= c ==> t + quiet <= c
  }

  ghost predicate Past(comments: seq<Comment>, closings: seq<Time>, clock: Time) {
    && (forall c :: c in comments ==> c.at <= clock)
    && (forall t :: t in closings ==> t <= clock)
  }

  ghost predicate CommentsOk(comments: seq<Comment>, times: set<Time>, start: Time) {
    forall m: Marker ::
      OncePerPeriod(comments, times, m, WARN_QUIET) && NotBefore(comments, start, m, start + QuietFor(m))
  }

  /** Holds in every run, whatever timestamps the commits carry. */
  ghost predicate Inv(h: History) {
    && InOrder(h) && Past(h.comments, h.closings, h.clock)
    && CommentsOk(h.comments, MeasuredTimes(h), DraftStart(h))
    && ClosingsOk(h.closings, DraftTimes(h), CLOSE_QUIET)
  }

  lemma MoreTimes(comments: seq<Comment>, times: set<Time>, more: set<Time>, m: Marker, quiet: int)
    requires OncePerPeriod(comments, times, m, quiet) && times <= more
    ensures OncePerPeriod(comments, more, m, quiet)
  {
  }

  /** A comment without the marker, or the first with it since `active`, after that many quiet days. */
  lemma NewCommentOnce(comments: seq<Comment>, times: set<Time>, active: Time, c: Comment, m: Marker, quiet: int)
    requires OncePerPeriod(comments, times, m, quiet) && active in times
    requires m in c.marks ==> active + quiet <= c.at && LatestMarkerAt(comments, m, active).None?
    ensures OncePerPeriod(comments + [c], times, m, quiet)
  {
    var all := comments + [c];
    forall i, j | 0 <= i < j < |all| && m in all[i].marks && m in all[j].marks
      ensures ActivityBetween(times, all[i].at, all[j].at, quiet)
    {
      if j == |comments| {
        assert all[i] in comments && !Marked(all[i], m, active);
      }
    }
  }

  // ---- Steps -----------------------------------------------------------------------

  /** The same activity, seen later. */
  ghost predicate SameActivity(h: History, r: History) {
    r.created == h.created && r.commits == h.commits && r.transitions == h.transitions && h.clock <= r.clock
  }

  lemma SameActivityKeeps(h: History, r: History)
    requires InOrder(h) && SameActivity(h, r)
    ensures InOrder(r) && DraftTimes(r) == DraftTimes(h) && PushTimes(r) == PushTimes(h)
    ensures MeasuredTimes(r) == MeasuredTimes(h)
    ensures DraftStart(r) == DraftStart(h) && LastPush(r) == LastPush(h) && LastActivity(r) == LastActivity(h)
  {
  }

  lemma PushedActivity(h: History, stamp: Time, at: Time)
    requires InOrder(h) && at > h.clock
    ensures var r := Step(h, Pushed(stamp, at));
            && InOrder(r) && DraftTimes(r) == DraftTimes(h) && DraftStart(r) == DraftStart(h)
            && PushTimes(r) == PushTimes(h) + {at} && LastPush(r) == at
            && MeasuredTimes(r) == MeasuredTimes(h) + {stamp} && LastActivity(r) == Max(DraftStart(h), stamp)
  {
    var r := Step(h, Pushed(stamp, at));
    assert forall i :: 0 <= i < |h.commits| ==> r.commits[i] == h.commits[i] && h.commits[i] in h.commits;
    assert forall p :: p in r.commits <==> p in h.commits || p == Push(stamp, at);
  }

  lemma TransitionsAppend(ts: seq<Transition>, t: Transition, after: Time, clock: Time)
    requires TransitionsIncreasing(ts, after, clock) && after <= clock < t.at
    ensures TransitionsIncreasing(ts + [t], after, t.at)
    ensures (set x | x in ts + [t] :: x.at) == (set x | x in ts :: x.at) + {t.at}
  {
    var all := ts + [t];
    assert all[|ts|] == t && forall i :: 0 <= i < |ts| ==> all[i] == ts[i] && ts[i] in ts;
    assert forall x :: x in all <==> x in ts || x == t;
  }

  lemma DraftedActivity(h: History, toDraft: bool, at: Time)
    requires InOrder(h) && at > h.clock
    ensures var r := Step(h, Drafted(toDraft, at));
            && InOrder(r) && DraftTimes(r) == DraftTimes(h) + {at} && DraftStart(r) == at
            && PushTimes(r) == PushTimes(h) && LastPush(r) == LastPush(h)
            && MeasuredTimes(r) == MeasuredTimes(h) + {at} && LastActivity(r) >= at
  {
    TransitionsAppend(h.transitions, Transition(toDraft, at), h.created, h.clock);
  }

  lemma PushedKeeps(h: History, stamp: Time, at: Time)
    requires Inv(h) && at > h.clock
    ensures Inv(Step(h, Pushed(stamp, at)))
  {
    PushedActivity(h, stamp, at);
    forall m: Marker
      ensures OncePerPeriod(h.comments, MeasuredTimes(h) + {stamp}, m, WARN_QUIET)
    {
      MoreTimes(h.comments, MeasuredTimes(h), MeasuredTimes(h) + {stamp}, m, WARN_QUIET);
    }
  }

  /** A draft transition opens a new period: no comment lies in it yet. */
  lemma DraftedKeeps(h: History, toDraft: bool, at: Time)
    requires Inv(h) && at > h.clock
    ensures Inv(Step(h, Drafted(toDraft, at)))
  {
    DraftedActivity(h, toDraft, at);
    forall m: Marker
      ensures OncePerPeriod(h.comments, MeasuredTimes(h) + {at}, m, WARN_QUIET)
    {
      MoreTimes(h.comments, MeasuredTimes(h), MeasuredTimes(h) + {at}, m, WARN_QUIET);
    }
  }

  /** Time passed, or the pull request was opened or closed by hand. */
  lemma IdleKeeps(h: History, r: History)
    requires Inv(h) && SameActivity(h, r) && r.comments == h.comments && r.closings == h.closings
    ensures Inv(r)
  {
    SameActivityKeeps(h, r);
  }

  /** The comment may be posted: nothing marked since the last activity, and the waiting times have passed. */
  ghost predicate MayPost(h: History, m: Marker, at: Time) {
    && LatestMarkerAt(h.comments, m, LastActivity(h)).None?
    && LastActivity(h) + WARN_QUIET <= at && DraftStart(h) + QuietFor(m) <= at
  }

  lemma CommentKeeps(h: History, r: History, c: Comment)
    requires Inv(h) && SameActivity(h, r) && r.comments == h.comments + [c] && r.closings == h.closings
    requires c.at == r.clock && forall m: Marker :: m in c.marks ==> MayPost(h, m, c.at)
    ensures Inv(r)
  {
    SameActivityKeeps(h, r);
    LastAreLatest(h);
    forall m: Marker
      ensures OncePerPeriod(r.comments, MeasuredTimes(h), m, WARN_QUIET)
      ensures NotBefore(r.comments, DraftStart(h), m, DraftStart(h) + QuietFor(m))
    {
      NewCommentOnce(h.comments, MeasuredTimes(h), LastActivity(h), c, m, WARN_QUIET);
      assert NotBefore(h.comments, DraftStart(h), m, DraftStart(h) + QuietFor(m));
    }
  }

  lemma CloseKeeps(h: History, r: History)
    requires Inv(h) && SameActivity(h, r) && r.comments == h.comments && r.closings == h.closings + [r.clock]
    requires DraftStart(h) + CLOSE_QUIET <= r.clock
    ensures Inv(r)
  {
    SameActivityKeeps(h, r);
    LastAreLatest(h);
  }

  /** What a sweep does to a draft it finds stale. */
  lemma SweptCases(h: History, now: Time)
    requires Inv(h)
    ensures var a := SweepOf(h, now);
            a.Some? ==>
              && LastActivity(h) + WARN_QUIET <= now
              && (a.value.comment.Some? ==> MayPost(h, a.value.comment.value, now))
              && (a.value.comment == Some(WarningMarker) <==> !a.value.close)
              && (a.value.close ==> DraftStart(h) + CLOSE_QUIET <= Max(now, h.clock))
              && (a.value.comment.None? ==> LatestMarkerAt(h.comments, CloseMarker, LastActivity(h)).Some?)
  {
    var start := DraftStart(h);
    assert NotBefore(h.comments, start, WarningMarker, start + QuietFor(WarningMarker));
    assert NotBefore(h.comments, start, CloseMarker, start + QuietFor(CloseMarker));
    LastAreLatest(h);
  }

  lemma SweptKeeps(h: History, now: Time, crashes: bool, at: Time)
    requires Inv(h) && at > h.clock && now <= at
    ensures Inv(Step(h, Swept(now, crashes, at)))
  {
    var a := SweepOf(h, now);
    SweepMeasures(h, now);
    SweptCases(h, now);
    var idle := h.(clock := at);
    IdleKeeps(h, idle);
    if a.Some? {
      var posted := Posted(idle, a.value.comment, at);
      if a.value.comment.Some? {
        CommentKeeps(h, posted, Comment({a.value.comment.value}, at));
      }
      SameActivityKeeps(h, posted);
      if a.value.close && !crashes {
        CloseKeeps(posted, Step(h, Swept(now, crashes, at)));
      }
    }
  }

  lemma StepKeeps(h: History, e: Event)
    requires Inv(h) && Timely(h, e)
    ensures Inv(Step(h, e))
  {
    match e
    case Swept(now, crashes, at) => SweptKeeps(h, now, crashes, at);
    case Pushed(stamp, at) => PushedKeeps(h, stamp, at);
    case Drafted(toDraft, at) => DraftedKeeps(h, toDraft, at);
    case Commented(at) => CommentKeeps(h, Step(h, e), Comment({}, at));
    case _ => IdleKeeps(h, Step(h, e));
  }

  lemma {:induction false} RunKeeps(h: History, run: seq<Event>)
    requires Inv(h) && TimelyRun(h, run)
    ensures Inv(After(h, run))
    decreases |run|
  {
    if run != [] {
      StepKeeps(h, run[0]);
      RunKeeps(Step(h, run[0]), run[1..]);
    }
  }

  // ---- Results for arbitrary timestamps -----------------------------------------------

  /** In every run, crashes and any commit timestamps included, the sweep closes only 28 days or more after the last draft transition. */
  lemma ClosedAfterDraftQuiet(created: Time, draft: bool, run: seq<Event>)
    requires TimelyRun(Opened(created, draft), run)
    ensures var h := After(Opened(created, draft), run);
            ClosingsOk(h.closings, DraftTimes(h), 28 * DAY)
  {
    RunKeeps(Opened(created, draft), run);
  }

  /** In every run, each period of measured activity gets at most one warning and at most one close comment. */
  lemma OneCommentPerPeriod(created: Time, draft: bool, run: seq<Event>, marker: Marker)
    requires TimelyRun(Opened(created, draft), run)
    ensures var h := After(Opened(created, draft), run);
            OncePerPeriod(h.comments, MeasuredTimes(h), marker, 21 * DAY)
  {
    RunKeeps(Opened(created, draft), run);
  }

  // ---- Interrupted sweeps -------------------------------------------------------------

  /** The close comment of the current period has been posted and the draft is still open. */
  ghost predicate Interrupted(h: History) {
    && Inv(h) && IsDraft(h)
    && LatestMarkerAt(h.comments, CloseMarker, LastActivity(h)).Some?
  }

  /** Before it closes, a sweep makes sure that the period's close comment is there. */
  lemma CloseCommentIn(comments: seq<Comment>, active: Time, now: Time, at: Time)
    requires active <= at
    ensures var a := DraftAction(active, comments, now);
            a.Some? && a.value.close ==>
              var posted := if a.value.comment.Some? then comments + [Comment({a.value.comment.value}, at)] else comments;
              LatestMarkerAt(posted, CloseMarker, active).Some?
  {
    var a := DraftAction(active, comments, now);
    if a.Some? && a.value.close && a.value.comment.Some? {
      LatestMarkerAppend(comments, Comment({CloseMarker}, at), CloseMarker, active);
    }
  }

  /** A crash after the close comment leaves exactly that state. */
  lemma CrashInterrupts(h: History, now: Time, at: Time)
    requires Inv(h) && Timely(h, Swept(now, true, at))
    requires SweepOf(h, now).Some? && SweepOf(h, now).value.close
    ensures var r := Step(h, Swept(now, true, at));
            Interrupted(r) && LastActivity(r) == LastActivity(h)
  {
    SweptKeeps(h, now, true, at);
    SweepMeasures(h, now);
    CrashPosts(h, now, at);
    SameActivityKeeps(h, Posted(h.(clock := at), SweepOf(h, now).value.comment, at));
  }

  /** What is left of a sweep that crashes before closing. */
  lemma CrashPosts(h: History, now: Time, at: Time)
    requires now <= at && SweepOf(h, now).Some? && SweepOf(h, now).value.close
    ensures var r := Posted(h.(clock := at), SweepOf(h, now).value.comment, at);
            && Acted(h.(clock := at), SweepOf(h, now), true, at) == r && SameActivity(h.(clock := at), r)
            && r.open == h.open && r.draft == h.draft && LatestMarkerAt(r.comments, CloseMarker, LastActivity(h)).Some?
  {
    CloseCommentIn(h.comments, LastActivity(h), now, at);
  }

  /** No push, transition or closing: comments, reopening and further crashing sweeps. */
  predicate Quiet(e: Event) {
    e.Commented? || e.Reopened? || (e.Swept? && e.crashes)
  }

  /** A sweep of an interrupted draft posts nothing and, unless it crashes too, closes it. */
  lemma SweepInterrupted(h: History, now: Time, crashes: bool, at: Time)
    requires Interrupted(h)
    ensures var r := Step(h, Swept(now, crashes, at));
            && r.comments == h.comments && (crashes ==> r == h.(clock := at))
            && (!crashes && now >= LastActivity(h) + DRAFT_WARNING_AFTER ==> !r.open)
  {
    SweepMeasures(h, now);
  }

  /** Only the clock and unmarked comments may differ. */
  lemma StaysInterrupted(h: History, r: History)
    requires Interrupted(h) && Inv(r) && SameActivity(h, r) && h.comments <= r.comments && r.open && r.draft == h.draft
    ensures Interrupted(r) && LastActivity(r) == LastActivity(h)
  {
    SameActivityKeeps(h, r);
    var c :| c in h.comments && Marked(c, CloseMarker, LastActivity(h));
    assert c in r.comments && Marked(c, CloseMarker, LastActivity(r));
  }

  lemma QuietKeepsInterrupted(h: History, e: Event)
    requires Interrupted(h) && Timely(h, e) && Quiet(e)
    ensures Interrupted(Step(h, e)) && LastActivity(Step(h, e)) == LastActivity(h)
  {
    StepKeeps(h, e);
    if e.Swept? {
      SweepInterrupted(h, e.now, true, e.at);
    }
    StaysInterrupted(h, Step(h, e));
  }

  lemma {:induction false} QuietRunKeepsInterrupted(h: History, run: seq<Event>)
    requires Interrupted(h) && TimelyRun(h, run) && forall e :: e in run ==> Quiet(e)
    ensures Interrupted(After(h, run)) && LastActivity(After(h, run)) == LastActivity(h)
    decreases |run|
  {
    if run != [] {
      assert run[0] in run;
      QuietKeepsInterrupted(h, run[0]);
      QuietRunKeepsInterrupted(Step(h, run[0]), run[1..]);
    }
  }

  /**
   After a crash between the close comment and the closing, and any quiet events
   since, the next sweep that gets through closes without commenting again.
   */
  lemma RetryClosesSilently(h: History, crash: Event, between: seq<Event>, retry: Event)
    requires Inv(h) && Timely(h, crash) && crash.Swept? && crash.crashes
    requires SweepOf(h, crash.now).Some? && SweepOf(h, crash.now).value.close
    requires TimelyRun(Step(h, crash), between) && forall e :: e in between ==> Quiet(e)
    requires retry.Swept? && !retry.crashes && retry.now >= crash.now
    ensures var mid := After(Step(h, crash), between);
            !Step(mid, retry).open && Step(mid, retry).comments == mid.comments
  {
    CrashInterrupts(h, crash.now, crash.at);
    QuietRunKeepsInterrupted(Step(h, crash), between);
    SweepInterrupted(After(Step(h, crash), between), retry.now, false, retry.at);
  }

  lemma FirstSweepWarns(h: History, now: Time, crashes: bool, at: Time)
    requires InOrder(h) && IsDraft(h) && now >= LastActivity(h) + DRAFT_WARNING_AFTER
    requires LatestMarkerAt(h.comments, CloseMarker, LastActivity(h)).None?
    requires LatestMarkerAt(h.comments, WarningMarker, LastActivity(h)).None?
    ensures Step(h, Swept(now, crashes, at)) == Posted(h.(clock := at), Some(WarningMarker), at)
  {
    SweepMeasures(h, now);
  }

  lemma SecondSweepCloses(h: History, warned: Comment, now: Time, at: Time)
    requires InOrder(h) && IsDraft(h)
    requires LatestMarkerAt(h.comments, WarningMarker, LastActivity(h)) == Some(warned.at)
    requires LatestMarkerAt(h.comments, CloseMarker, LastActivity(h)).None?
    requires now >= warned.at + DRAFT_CLOSE_AFTER_WARNING && warned.at >= LastActivity(h) + DRAFT_WARNING_AFTER
    ensures var r := Step(h, Swept(now, false, at));
            !r.open && r.comments == h.comments + [Comment({CloseMarker}, at)]
  {
    SweepMeasures(h, now);
  }

  lemma LatestMarkerAppend(comments: seq<Comment>, c: Comment, marker: Marker, active: Time)
    requires LatestMarkerAt(comments, marker, active).None?
    ensures LatestMarkerAt(comments + [c], marker, active) == if Marked(c, marker, active) then Some(c.at) else None
  {
    assert (comments + [c])[..|comments|] == comments;
  }

  /** The state after the warning: the same draft, warned once. */
  lemma WarnedHistory(h: History, at: Time)
    requires InOrder(h) && IsDraft(h) && h.clock < at && LastActivity(h) <= at
    requires forall m: Marker :: LatestMarkerAt(h.comments, m, LastActivity(h)).None?
    ensures var mid := Posted(h.(clock := at), Some(WarningMarker), at);
            && InOrder(mid) && IsDraft(mid) && LastActivity(mid) == LastActivity(h)
            && mid.comments == h.comments + [Comment({WarningMarker}, at)]
            && LatestMarkerAt(mid.comments, WarningMarker, LastActivity(mid)) == Some(at)
            && LatestMarkerAt(mid.comments, CloseMarker, LastActivity(mid)).None?
  {
    var w := Comment({WarningMarker}, at);
    SameActivityKeeps(h, Posted(h.(clock := at), Some(WarningMarker), at));
    LatestMarkerAppend(h.comments, w, WarningMarker, LastActivity(h));
    LatestMarkerAppend(h.comments, w, CloseMarker, LastActivity(h));
  }

  /** Silence is acted on: a sweep past 21 quiet days and another a week after its warning close the draft. */
  lemma SilenceIsClosed(h: History, first: Event, second: Event)
    requires Inv(h) && IsDraft(h) && Timely(h, first)
    requires first.Swept? && second.Swept? && !second.crashes
    requires forall m: Marker :: LatestMarkerAt(h.comments, m, LastActivity(h)).None?
    requires first.now >= LastActivity(h) + 21 * DAY && second.now >= first.at + 7 * DAY
    ensures var r := Step(Step(h, first), second);
            !r.open && r.comments == h.comments + [Comment({WarningMarker}, first.at)] + [Comment({CloseMarker}, second.at)]
  {
    FirstSweepWarns(h, first.now, first.crashes, first.at);
    WarnedHistory(h, first.at);
    var w := Comment({WarningMarker}, first.at);
    SecondSweepCloses(Posted(h.(clock := first.at), Some(WarningMarker), first.at), w, second.now, second.at);
  }
}
