/**
 How much quiet the stale draft sweep guarantees after a push (script/github-pr-cleanup.py:174-206).
 A commit counts from its own timestamp, which may lie before the push: by at most `lag`.
 */
module PrTimestamps {
  import opened Prelude
  import opened PrCleanup
  import opened PrSafety

  /** No commit is stamped earlier than that before its push. */
  ghost predicate LagAtMost(run: seq<Event>, lag: int) {
    forall e :: e in run && e.Pushed? ==> e.at - lag <= e.stamp
  }

  ghost predicate PushesLag(ps: seq<Push>, lag: int) {
    forall p :: p in ps ==> p.at - lag <= p.stamp
  }

  /** No warning or close comment has been posted since this time. */
  predicate Unmarked(comments: seq<Comment>, since: Time) {
    forall c :: c in comments && c.marks != {} ==> c.at < since
  }

  /** No commit is stamped before a warning or close comment and pushed after it. */
  ghost predicate NoneStraddled(h: History, run: seq<Event>)
    decreases |run|
  {
    run == [] ||
    ((run[0].Pushed? ==> Unmarked(h.comments, run[0].stamp)) && NoneStraddled(Step(h, run[0]), run[1..]))
  }

  /** The least quiet time after a push, however it straddles a warning. */
  function Earliest(lag: int): (d: int) {
    Max(WARN_QUIET - lag, 1)
  }

  /** When a draft becomes stale: three weeks after its measured activity, and not before its last push. */
  function Due(h: History): (t: Time) {
    Max(LastActivity(h) + WARN_QUIET, LastPush(h) + 1)
  }

  function DueFor(h: History, m: Marker): (t: Time) {
    if m == WarningMarker then Due(h) else Due(h) + DRAFT_CLOSE_AFTER_WARNING
  }

  /** Holds as long as no push straddles a marker comment. */
  ghost predicate Clean(h: History) {
    && OncePerPeriod(h.comments, MeasuredTimes(h), CloseMarker, CLOSE_QUIET)
    && forall m: Marker :: NotBefore(h.comments, LastActivity(h), m, DueFor(h, m))
  }

  ghost predicate PushesQuiet(h: History, lag: int, quiet: int) {
    PushesLag(h.commits, lag) && ClosingsOk(h.closings, PushTimes(h), quiet)
  }

  lemma DueAfterPushes(h: History, lag: int)
    requires InOrder(h) && PushesLag(h.commits, lag)
    ensures forall t :: t in PushTimes(h) ==> t + Earliest(lag) <= Due(h)
  {
    LastAreLatest(h);
    if h.commits != [] {
      assert h.commits[|h.commits| - 1] in h.commits;
    }
  }

  /** A sweep that closes does so when the draft is due, and a week later while nothing is straddled. */
  lemma ClosesWhenDue(h: History, now: Time, at: Time)
    requires Inv(h) && now <= at && h.clock < at && SweepOf(h, now).Some?
    ensures Due(h) <= at
    ensures Clean(h) && SweepOf(h, now).value.close ==> Due(h) + DRAFT_CLOSE_AFTER_WARNING <= at
  {
    LastAreLatest(h);
    if Clean(h) {
      assert NotBefore(h.comments, LastActivity(h), WarningMarker, DueFor(h, WarningMarker));
      assert NotBefore(h.comments, LastActivity(h), CloseMarker, DueFor(h, CloseMarker));
    }
  }

  lemma SweptQuiet(h: History, now: Time, crashes: bool, at: Time, lag: int, quiet: int)
    requires Inv(h) && h.clock < at && now <= at && PushesQuiet(h, lag, quiet)
    requires quiet <= Earliest(lag) || (Clean(h) && quiet <= Earliest(lag) + DRAFT_CLOSE_AFTER_WARNING)
    ensures PushesQuiet(Step(h, Swept(now, crashes, at)), lag, quiet)
  {
    SweepMeasures(h, now);
    DueAfterPushes(h, lag);
    var a := SweepOf(h, now);
    var r := Step(h, Swept(now, crashes, at));
    assert r.commits == h.commits;
    if a.Some? && a.value.close && !crashes {
      ClosesWhenDue(h, now, at);
      assert r.closings == h.closings + [at];
      assert forall t :: t in PushTimes(h) ==> t + quiet <= at;
    } else {
      assert r.closings == h.closings;
    }
  }

  /** What a step does to the closings and the pushes. */
  lemma StepQuiet(h: History, e: Event, lag: int, quiet: int)
    requires Inv(h) && Timely(h, e) && PushesQuiet(h, lag, quiet)
    requires e.Pushed? ==> e.at - lag <= e.stamp
    requires quiet <= Earliest(lag) || (Clean(h) && quiet <= Earliest(lag) + DRAFT_CLOSE_AFTER_WARNING)
    ensures PushesQuiet(Step(h, e), lag, quiet)
  {
    var r := Step(h, e);
    match e
    case Pushed(stamp, at) =>
      PushedActivity(h, stamp, at);
    case Swept(now, crashes, at) =>
      SweptQuiet(h, now, crashes, at, lag, quiet);
    case _ =>
      assert r.commits == h.commits && r.closings == h.closings;
  }

  lemma {:induction false} RunQuiet(h: History, run: seq<Event>, lag: int)
    requires Inv(h) && TimelyRun(h, run) && LagAtMost(run, lag) && PushesQuiet(h, lag, Earliest(lag))
    ensures PushesQuiet(After(h, run), lag, Earliest(lag))
    decreases |run|
  {
    if run != [] {
      assert run[0] in run && forall e :: e in run[1..] ==> e in run;
      StepQuiet(h, run[0], lag, Earliest(lag));
      StepKeeps(h, run[0]);
      RunQuiet(Step(h, run[0]), run[1..], lag);
    }
  }

  // ---- While nothing is straddled ------------------------------------------------------

  lemma PostClean(h: History, m: Marker, now: Time, at: Time)
    requires Inv(h) && Clean(h) && now <= at && h.clock < at
    requires SweepOf(h, now).Some? && SweepOf(h, now).value.comment == Some(m)
    ensures Clean(Posted(h.(clock := at), Some(m), at))
  {
    var r := Posted(h.(clock := at), Some(m), at);
    var c := Comment({m}, at);
    SweptCases(h, now);
    ClosesWhenDue(h, now, at);
    SameActivityKeeps(h, r);
    LastAreLatest(h);
    NewCommentOnce(h.comments, MeasuredTimes(h), LastActivity(h), c, CloseMarker, CLOSE_QUIET);
    forall k: Marker
      ensures NotBefore(r.comments, LastActivity(r), k, DueFor(r, k))
    {
      assert NotBefore(h.comments, LastActivity(h), k, DueFor(h, k));
      assert DueFor(r, k) == DueFor(h, k);
    }
  }

  /** Nothing but time, an unmarked comment or the open flag changes. */
  lemma IdleClean(h: History, r: History)
    requires InOrder(h) && Clean(h) && SameActivity(h, r)
    requires r.comments == h.comments || (exists at :: r.comments == h.comments + [Comment({}, at)])
    ensures Clean(r)
  {
    SameActivityKeeps(h, r);
    LastAreLatest(h);
    if r.comments != h.comments {
      var at :| r.comments == h.comments + [Comment({}, at)];
      NewCommentOnce(h.comments, MeasuredTimes(h), LastActivity(h), Comment({}, at), CloseMarker, CLOSE_QUIET);
    }
    forall m: Marker
      ensures NotBefore(r.comments, LastActivity(r), m, DueFor(r, m))
    {
      assert NotBefore(h.comments, LastActivity(h), m, DueFor(h, m));
      assert DueFor(r, m) == DueFor(h, m);
    }
  }

  lemma ActivityClean(h: History, e: Event)
    requires Inv(h) && Clean(h) && Timely(h, e) && (e.Drafted? || (e.Pushed? && Unmarked(h.comments, e.stamp)))
    ensures Clean(Step(h, e))
  {
    var t := if e.Pushed? then e.stamp else e.at;
    if e.Pushed? {
      PushedActivity(h, e.stamp, e.at);
    } else {
      DraftedActivity(h, e.toDraft, e.at);
    }
    MoreTimes(h.comments, MeasuredTimes(h), MeasuredTimes(h) + {t}, CloseMarker, CLOSE_QUIET);
  }

  lemma SweptClean(h: History, now: Time, crashes: bool, at: Time)
    requires Inv(h) && Clean(h) && now <= at && h.clock < at
    ensures Clean(Step(h, Swept(now, crashes, at)))
  {
    SweepMeasures(h, now);
    var a := SweepOf(h, now);
    var r := Step(h, Swept(now, crashes, at));
    if a.None? || a.value.comment.None? {
      IdleClean(h, r);
    } else {
      var posted := Posted(h.(clock := at), a.value.comment, at);
      PostClean(h, a.value.comment.value, now, at);
      SameActivityKeeps(h, posted);
      IdleClean(posted, r);
    }
  }

  lemma StepClean(h: History, e: Event)
    requires Inv(h) && Clean(h) && Timely(h, e)
    requires e.Pushed? ==> Unmarked(h.comments, e.stamp)
    ensures Clean(Step(h, e))
  {
    match e
    case Swept(now, crashes, at) => SweptClean(h, now, crashes, at);
    case Pushed(_, _) => ActivityClean(h, e);
    case Drafted(_, _) => ActivityClean(h, e);
    case _ => IdleClean(h, Step(h, e));
  }

  lemma {:induction false} RunClean(h: History, run: seq<Event>, lag: int)
    requires Inv(h) && Clean(h) && TimelyRun(h, run) && LagAtMost(run, lag) && NoneStraddled(h, run)
    requires PushesQuiet(h, lag, Earliest(lag) + DRAFT_CLOSE_AFTER_WARNING)
    ensures Clean(After(h, run))
    ensures PushesQuiet(After(h, run), lag, Earliest(lag) + DRAFT_CLOSE_AFTER_WARNING)
    decreases |run|
  {
    if run != [] {
      assert run[0] in run && forall e :: e in run[1..] ==> e in run;
      StepQuiet(h, run[0], lag, Earliest(lag) + DRAFT_CLOSE_AFTER_WARNING);
      StepClean(h, run[0]);
      StepKeeps(h, run[0]);
      RunClean(Step(h, run[0]), run[1..], lag);
    }
  }

  /** Commits stamped when they are pushed, or later, straddle nothing. */
  lemma {:induction false} HonestStraddlesNothing(h: History, run: seq<Event>)
    requires Inv(h) && TimelyRun(h, run) && LagAtMost(run, 0)
    ensures NoneStraddled(h, run)
    decreases |run|
  {
    if run != [] {
      assert run[0] in run && forall e :: e in run[1..] ==> e in run;
      StepKeeps(h, run[0]);
      HonestStraddlesNothing(Step(h, run[0]), run[1..]);
    }
  }

  // ---- Results ---------------------------------------------------------------------------

  /** Commits stamped before a warning and pushed after it cost the week between warning and closing. */
  lemma ClosedAfterPushQuiet(created: Time, draft: bool, run: seq<Event>, lag: int)
    requires TimelyRun(Opened(created, draft), run) && LagAtMost(run, lag)
    ensures var h := After(Opened(created, draft), run);
            && ClosingsOk(h.closings, PushTimes(h), Max(21 * DAY - lag, 1))
            && (NoneStraddled(Opened(created, draft), run) ==>
                  ClosingsOk(h.closings, PushTimes(h), 7 * DAY + Max(21 * DAY - lag, 1)))
  {
    RunQuiet(Opened(created, draft), run, lag);
    if NoneStraddled(Opened(created, draft), run) {
      RunClean(Opened(created, draft), run, lag);
    }
  }

  /** With commits stamped no earlier than their push, the sweep closes only 28 days or more after all activity. */
  lemma ClosedOnlyAfterQuiet(created: Time, draft: bool, run: seq<Event>)
    requires TimelyRun(Opened(created, draft), run) && LagAtMost(run, 0)
    ensures var h := After(Opened(created, draft), run);
            ClosingsOk(h.closings, DraftTimes(h) + PushTimes(h), 28 * DAY)
  {
    RunKeeps(Opened(created, draft), run);
    HonestStraddlesNothing(Opened(created, draft), run);
    RunClean(Opened(created, draft), run, 0);
  }

  /** While nothing is straddled, close comments are 28 quiet days apart. */
  lemma OneClosePerPeriod(created: Time, draft: bool, run: seq<Event>)
    requires TimelyRun(Opened(created, draft), run) && NoneStraddled(Opened(created, draft), run)
    ensures var h := After(Opened(created, draft), run);
            OncePerPeriod(h.comments, MeasuredTimes(h), CloseMarker, 28 * DAY)
  {
    RunCleanOnly(Opened(created, draft), run);
  }

  lemma {:induction false} RunCleanOnly(h: History, run: seq<Event>)
    requires Inv(h) && Clean(h) && TimelyRun(h, run) && NoneStraddled(h, run)
    ensures Clean(After(h, run))
    decreases |run|
  {
    if run != [] {
      StepClean(h, run[0]);
      StepKeeps(h, run[0]);
      RunCleanOnly(Step(h, run[0]), run[1..]);
    }
  }

  // ---- The guarantees are exact --------------------------------------------------------------

  lemma AfterThree(h: History, a: Event, b: Event, c: Event)
    ensures After(h, [a, b, c]) == Step(Step(Step(h, a), b), c)
    ensures TimelyRun(h, [a, b, c]) <==> Timely(h, a) && Timely(Step(h, a), b) && Timely(Step(Step(h, a), b), c)
    ensures NoneStraddled(h, [a, b, c]) <==>
              && (a.Pushed? ==> Unmarked(h.comments, a.stamp))
              && (b.Pushed? ==> Unmarked(Step(h, a).comments, b.stamp))
              && (c.Pushed? ==> Unmarked(Step(Step(h, a), b).comments, c.stamp))
  {
    var bc, cc: seq<Event> := [b, c], [c];
    assert [a, b, c][1..] == bc && bc[1..] == cc && cc[1..] == [];
    var h1, h2 := Step(h, a), Step(Step(h, a), b);
    assert After(h2, cc) == Step(h2, c) && After(h1, bc) == After(h2, cc);
    assert TimelyRun(h2, cc) <==> Timely(h2, c);
    assert TimelyRun(h1, bc) <==> Timely(h1, b) && TimelyRun(h2, cc);
    assert NoneStraddled(h2, cc) <==> (c.Pushed? ==> Unmarked(h2.comments, c.stamp));
    assert NoneStraddled(h1, bc) <==> (b.Pushed? ==> Unmarked(h1.comments, b.stamp)) && NoneStraddled(h2, cc);
  }

  /** An open draft with one push and one warning. */
  function Warned(push: Push, mark: Time, clock: Time): (h: History) {
    History(clock, true, true, 0, [push], [], [Comment({WarningMarker}, mark)], [])
  }

  lemma WarnThenPush(mark: Time, lag: int)
    requires mark == WARN_QUIET && lag > 0
    ensures Step(Step(Opened(0, true), Swept(mark, false, mark)), Pushed(mark, mark + lag))
            == Warned(Push(mark, mark + lag), mark, mark + lag)
    ensures Step(Opened(0, true), Swept(mark, false, mark)).clock == mark
  {
    var h := Opened(0, true);
    FirstSweepWarns(h, mark, false, mark);
    assert Step(h, Swept(mark, false, mark))
        == History(mark, true, true, 0, [], [], [Comment({WarningMarker}, mark)], []);
  }

  lemma PushThenWarn(stamp: Time, at: Time, mark: Time)
    requires 0 < stamp <= at < mark && stamp + WARN_QUIET <= mark
    ensures Step(Step(Opened(0, true), Pushed(stamp, at)), Swept(mark, false, mark)) == Warned(Push(stamp, at), mark, mark)
  {
    var h := History(at, true, true, 0, [Push(stamp, at)], [], [], []);
    assert Step(Opened(0, true), Pushed(stamp, at)) == h;
    FirstSweepWarns(h, mark, false, mark);
    assert [] + [Comment({WarningMarker}, mark)] == [Comment({WarningMarker}, mark)];
  }

  /** The sweep closes as soon as it may. */
  lemma CloseWarned(push: Push, mark: Time, clock: Time, end: Time)
    requires 0 < push.stamp <= mark && 0 < push.at <= clock
    requires end >= push.stamp + WARN_QUIET && end >= mark + DRAFT_CLOSE_AFTER_WARNING
    ensures var r := Step(Warned(push, mark, clock), Swept(end, false, end));
            end in r.closings && push.at in PushTimes(r)
  {
    var h, w := Warned(push, mark, clock), Comment({WarningMarker}, mark);
    assert [] + [w] == [w];
    LatestMarkerAppend([], w, WarningMarker, push.stamp);
    LatestMarkerAppend([], w, CloseMarker, push.stamp);
    SweepMeasures(h, end);
    assert push in h.commits;
  }

  /** Warned at `mark`; then a commit stamped there is pushed `lag` later; then the sweep closes as soon as it may. */
  lemma StraddlingRun(mark: Time, lag: int) returns (run: seq<Event>)
    requires mark == WARN_QUIET && lag > 0
    ensures TimelyRun(Opened(0, true), run) && LagAtMost(run, lag)
    ensures var h := After(Opened(0, true), run);
            mark + lag in PushTimes(h) && mark + lag + Earliest(lag) in h.closings
  {
    var end := mark + lag + Earliest(lag);
    var warn, push, close := Swept(mark, false, mark), Pushed(mark, mark + lag), Swept(end, false, end);
    WarnThenPush(mark, lag);
    CloseWarned(Push(mark, mark + lag), mark, mark + lag, end);
    AfterThree(Opened(0, true), warn, push, close);
    run := [warn, push, close];
  }

  /** A commit stamped at `stamp` is pushed `lag` later; then the sweep warns and closes as soon as it may. */
  lemma UnstraddledRun(stamp: Time, lag: int) returns (run: seq<Event>)
    requires stamp == 1 && lag >= 0
    ensures TimelyRun(Opened(0, true), run) && LagAtMost(run, lag) && NoneStraddled(Opened(0, true), run)
    ensures var h := After(Opened(0, true), run);
            stamp + lag in PushTimes(h) && stamp + lag + Earliest(lag) + DRAFT_CLOSE_AFTER_WARNING in h.closings
  {
    var mark := stamp + lag + Earliest(lag);
    var end := mark + DRAFT_CLOSE_AFTER_WARNING;
    var push, warn, close := Pushed(stamp, stamp + lag), Swept(mark, false, mark), Swept(end, false, end);
    PushThenWarn(stamp, stamp + lag, mark);
    CloseWarned(Push(stamp, stamp + lag), mark, mark, end);
    AfterThree(Opened(0, true), push, warn, close);
    run := [push, warn, close];
  }

  /** In every run with that lag, every closing lies at least `quiet` after every push before it. */
  ghost predicate Guaranteed(lag: int, quiet: int) {
    forall created, draft, run :: TimelyRun(Opened(created, draft), run) && LagAtMost(run, lag) ==>
      ClosingsOk(After(Opened(created, draft), run).closings, PushTimes(After(Opened(created, draft), run)), quiet)
  }

  ghost predicate GuaranteedUnstraddled(lag: int, quiet: int) {
    forall created, draft, run ::
      TimelyRun(Opened(created, draft), run) && LagAtMost(run, lag) && NoneStraddled(Opened(created, draft), run) ==>
        ClosingsOk(After(Opened(created, draft), run).closings, PushTimes(After(Opened(created, draft), run)), quiet)
  }

  /** Exactly how long a push keeps a draft open, by how far its timestamp may lie back, when it straddles no comment. */
  lemma UnstraddledQuietIff(lag: int, quiet: int)
    requires lag >= 0
    ensures GuaranteedUnstraddled(lag, quiet) <==> quiet <= 7 * DAY + Max(21 * DAY - lag, 1)
  {
    if quiet <= 7 * DAY + Max(21 * DAY - lag, 1) {
      forall created, draft, run |
        TimelyRun(Opened(created, draft), run) && LagAtMost(run, lag) && NoneStraddled(Opened(created, draft), run)
        ensures ClosingsOk(After(Opened(created, draft), run).closings, PushTimes(After(Opened(created, draft), run)), quiet)
      {
        ClosedAfterPushQuiet(created, draft, run, lag);
      }
    } else {
      var run := UnstraddledRun(1, lag);
      var h := After(Opened(0, true), run);
      assert !ClosingsOk(h.closings, PushTimes(h), quiet);
    }
  }

  /** The same for all runs: 28 days with honest timestamps, and the warning week less as soon as they may lie back at all. */
  lemma QuietIff(lag: int, quiet: int)
    requires lag >= 0
    ensures Guaranteed(lag, quiet) <==> quiet <= if lag == 0 then 28 * DAY else Max(21 * DAY - lag, 1)
  {
    if quiet <= if lag == 0 then 28 * DAY else Max(21 * DAY - lag, 1) {
      forall created, draft, run | TimelyRun(Opened(created, draft), run) && LagAtMost(run, lag)
        ensures ClosingsOk(After(Opened(created, draft), run).closings, PushTimes(After(Opened(created, draft), run)), quiet)
      {
        if lag == 0 {
          HonestStraddlesNothing(Opened(created, draft), run);
        }
        ClosedAfterPushQuiet(created, draft, run, lag);
      }
    } else if lag == 0 {
      var run := UnstraddledRun(1, 0);
      var h := After(Opened(0, true), run);
      assert !ClosingsOk(h.closings, PushTimes(h), quiet);
    } else {
      var run := StraddlingRun(WARN_QUIET, lag);
      var h := After(Opened(0, true), run);
      assert !ClosingsOk(h.closings, PushTimes(h), quiet);
    }
  }
}
