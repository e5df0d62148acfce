/**
 The stale draft sweep of the pull request queue (script/github-pr-cleanup.py):
 warn about a draft without activity, close it a week after the warning. The
 only state is the pull request itself and its timestamped marker comments.
 */
module PrCleanup {
  import opened Prelude

  type Time = int

  /** Times are in seconds. */
  const DAY: int := 86400
  const DRAFT_WARNING_AFTER: int := 21 * DAY
  const DRAFT_CLOSE_AFTER_WARNING: int := 7 * DAY

  /** How many of the latest draft transitions the query asks for. */
  const TRANSITIONS_SHOWN: nat := 20

  datatype Marker = WarningMarker | CloseMarker

  /** A comment and the markers its body contains. */
  datatype Comment = Comment(marks: set<Marker>, at: Time)

  datatype Commit = Commit(pushed: Option<Time>, committed: Option<Time>)

  datatype Transition = Transition(toDraft: bool, at: Time)

  /** A pull request as the query shows it: at most the last commit, and the latest transitions. */
  datatype PullRequest = PullRequest(
    number: nat, open: bool, draft: bool, created: Time, commits: seq<Commit>, transitions: seq<Transition>)

  // ---- What the sweep measures -----------------------------------------------

  function LatestCommitAt(pr: PullRequest): (t: Option<Time>) {
    if pr.commits == [] then None
    else
      var commit := pr.commits[|pr.commits| - 1];
      if commit.pushed.Some? then commit.pushed else commit.committed
  }

  /** The first of the transitions with the greatest time. */
  function LatestTransition(ts: seq<Transition>): (t: Transition)
    requires ts != []
    ensures t in ts && forall u :: u in ts ==> u.at <= t.at
  {
    if |ts| == 1 then ts[0]
    else
      var before := LatestTransition(ts[..|ts| - 1]);
      assert ts == ts[..|ts| - 1] + [ts[|ts| - 1]];
      if ts[|ts| - 1].at > before.at then ts[|ts| - 1] else before
  }

  function CurrentDraftStartedAt(pr: PullRequest): (t: Option<Time>) {
    if !pr.open || !pr.draft then None
    else if pr.transitions == [] then Some(pr.created)
    else
      var latest := LatestTransition(pr.transitions);
      if latest.toDraft then Some(latest.at) else None
  }

  function Max(a: Time, b: Time): (m: Time) {
    if a >= b then a else b
  }

  function LatestDraftActivityAt(pr: PullRequest): (t: Option<Time>) {
    var started := CurrentDraftStartedAt(pr);
    if started.None? then None
    else
      var commit := LatestCommitAt(pr);
      if commit.None? then started else Some(Max(started.value, commit.value))
  }

  /** A comment that carries the marker and is not older than `notBefore`. */
  predicate Marked(c: Comment, marker: Marker, notBefore: Time) {
    marker in c.marks && c.at >= notBefore
  }

  function LatestMarkerAt(comments: seq<Comment>, marker: Marker, notBefore: Time): (t: Option<Time>)
    ensures t.None? ==> forall c :: c in comments ==> !Marked(c, marker, notBefore)
    ensures t.Some? ==> exists c :: c in comments && Marked(c, marker, notBefore) && c.at == t.value
    ensures t.Some? ==> forall c :: c in comments && Marked(c, marker, notBefore) ==> c.at <= t.value
  {
    if comments == [] then None
    else
      var c := comments[|comments| - 1];
      var before := LatestMarkerAt(comments[..|comments| - 1], marker, notBefore);
      assert comments == comments[..|comments| - 1] + [c];
      if Marked(c, marker, notBefore) && (before.None? || c.at > before.value) then Some(c.at) else before
  }

  method LatestMarkerCommentAt(comments: seq<Comment>, marker: Marker, notBefore: Time)
      returns (latest: Option<Time>)
    ensures latest == LatestMarkerAt(comments, marker, notBefore)
  {
    latest := None;
    for i := 0 to |comments|
      invariant latest == LatestMarkerAt(comments[..i], marker, notBefore)
    {
      assert comments[..i + 1][..i] == comments[..i];
      if marker !in comments[i].marks {
        continue;
      }
      var at := comments[i].at;
      if at < notBefore {
        continue;
      }
      if latest.None? || at > latest.value {
        latest := Some(at);
      }
    }
    assert comments[..|comments|] == comments;
  }

  // ---- What the sweep does ---------------------------------------------------

  /** An optional comment to post, and whether to close afterwards. */
  datatype Action = Action(comment: Option<Marker>, close: bool)

  function DraftAction(activity: Time, comments: seq<Comment>, now: Time): (a: Option<Action>) {
    if LatestMarkerAt(comments, CloseMarker, activity).Some? then Some(Action(None, true))
    else
      var warning := LatestMarkerAt(comments, WarningMarker, activity);
      if warning.Some? then
        if now - warning.value >= DRAFT_CLOSE_AFTER_WARNING then Some(Action(Some(CloseMarker), true)) else None
      else Some(Action(Some(WarningMarker), false))
  }

  predicate Stale(pr: PullRequest, now: Time) {
    var activity := LatestDraftActivityAt(pr);
    activity.Some? && now - activity.value >= DRAFT_WARNING_AFTER
  }

  function SweepPr(pr: PullRequest, comments: seq<Comment>, now: Time): (a: Option<Action>) {
    if Stale(pr, now) then DraftAction(LatestDraftActivityAt(pr).value, comments, now) else None
  }

  /** The stale drafts, in the order of the pull requests. */
  function StaleDrafts(prs: seq<PullRequest>, now: Time): (stale: seq<(PullRequest, Time)>) {
    if prs == [] then []
    else
      var pr := prs[|prs| - 1];
      StaleDrafts(prs[..|prs| - 1], now) + if Stale(pr, now) then [(pr, LatestDraftActivityAt(pr).value)] else []
  }

  /**
   When the current draft began: at the opening, or at the latest transition if that was into draft
   (the first of several at the same time).
   */
  ghost predicate DraftSince(pr: PullRequest, t: Time) {
    && pr.open && pr.draft
    && if pr.transitions == [] then t == pr.created
       else exists i :: 0 <= i < |pr.transitions| && Leads(pr.transitions, i) && pr.transitions[i] == Transition(true, t)
  }

  ghost predicate Leads(ts: seq<Transition>, i: nat)
    requires i < |ts|
  {
    forall j :: 0 <= j < |ts| ==> if j < i then ts[j].at < ts[i].at else ts[j].at <= ts[i].at
  }

  lemma {:induction false} LatestLeads(ts: seq<Transition>) returns (i: nat)
    requires ts != []
    ensures i < |ts| && Leads(ts, i) && LatestTransition(ts) == ts[i]
  {
    if |ts| == 1 {
      i := 0;
    } else {
      var init := ts[..|ts| - 1];
      i := LatestLeads(init);
      if ts[|ts| - 1].at > init[i].at {
        i := |ts| - 1;
      }
    }
  }

  /** A draft's activity is its beginning or its last commit, whichever is later. */
  lemma DraftActivityIff(pr: PullRequest, t: Time)
    ensures LatestDraftActivityAt(pr) == Some(t) <==>
              exists since :: DraftSince(pr, since)
                && t == if LatestCommitAt(pr).Some? && LatestCommitAt(pr).value > since then LatestCommitAt(pr).value else since
  {
    if pr.open && pr.draft && pr.transitions != [] {
      var i := LatestLeads(pr.transitions);
      assert forall j :: 0 <= j < |pr.transitions| && Leads(pr.transitions, j) ==> j == i;
    }
    var started := CurrentDraftStartedAt(pr);
    assert forall since :: DraftSince(pr, since) <==> started == Some(since);
  }

  /** The last commit counts from its push where that is known. */
  lemma CommitTime(pr: PullRequest, earlier: seq<Commit>, last: Commit)
    requires pr.commits == earlier + [last]
    ensures LatestCommitAt(pr) == if last.pushed.Some? then last.pushed else last.committed
  {
  }

  /** Exactly the drafts that have been quiet for three weeks, in order; `places` says where they stood. */
  method FindStaleDrafts(prs: seq<PullRequest>, now: Time)
      returns (stale: seq<(PullRequest, Time)>, ghost places: seq<nat>)
    ensures stale == StaleDrafts(prs, now) && StandAt(stale, places, prs)
    ensures forall i :: 0 <= i < |prs| ==> (i in places <==> QuietSince(prs[i], now - 21 * 24 * 60 * 60))
  {
    stale := [];
    for i := 0 to |prs|
      invariant stale == StaleDrafts(prs[..i], now)
    {
      var activity := LatestDraftActivityAt(prs[i]);
      if activity.Some? && now - activity.value >= DRAFT_WARNING_AFTER {
        stale := stale + [(prs[i], activity.value)];
      }
      assert prs[..i + 1][..i] == prs[..i];
    }
    assert prs[..|prs|] == prs;
    places := StalePlaces(prs, now);
  }

  /** The drafts stood at these places, in order, and have that activity. */
  ghost predicate StandAt(stale: seq<(PullRequest, Time)>, places: seq<nat>, prs: seq<PullRequest>) {
    && |places| == |stale| && (forall k, l :: 0 <= k < l < |places| ==> places[k] < places[l])
    && forall k :: 0 <= k < |stale| ==>
         places[k] < |prs| && stale[k].0 == prs[places[k]] && LatestDraftActivityAt(stale[k].0) == Some(stale[k].1)
  }

  lemma {:induction false} StalePlaces(prs: seq<PullRequest>, now: Time) returns (places: seq<nat>)
    ensures StandAt(StaleDrafts(prs, now), places, prs)
    ensures forall i :: 0 <= i < |prs| ==> (i in places <==> QuietSince(prs[i], now - DRAFT_WARNING_AFTER))
  {
    if prs == [] {
      places := [];
    } else {
      var n := |prs| - 1;
      var init := prs[..n];
      places := StalePlaces(init, now);
      assert forall i :: 0 <= i < n ==> init[i] == prs[i];
      StandMore(StaleDrafts(init, now), places, prs);
      if Stale(prs[n], now) {
        places := places + [n];
      } else {
        assert StaleDrafts(init, now) + [] == StaleDrafts(init, now);
      }
    }
  }

  lemma StandMore(stale: seq<(PullRequest, Time)>, places: seq<nat>, prs: seq<PullRequest>)
    requires prs != [] && StandAt(stale, places, prs[..|prs| - 1])
    ensures StandAt(stale, places, prs)
    ensures var pr := prs[|prs| - 1];
            LatestDraftActivityAt(pr).Some? ==>
              StandAt(stale + [(pr, LatestDraftActivityAt(pr).value)], places + [|prs| - 1], prs)
  {
  }

  /** A draft without activity after that time. */
  ghost predicate QuietSince(pr: PullRequest, time: Time) {
    LatestDraftActivityAt(pr).Some? && LatestDraftActivityAt(pr).value <= time
  }

  /** A write to the repository host. */
  datatype Effect = Post(number: nat, marker: Marker) | ClosePr(number: nat)

  function EffectsOf(number: nat, action: Option<Action>): (es: seq<Effect>) {
    if action.None? then []
    else
      (if action.value.comment.Some? then [Post(number, action.value.comment.value)] else [])
      + (if action.value.close then [ClosePr(number)] else [])
  }

  ghost predicate HasMarked(comments: seq<Comment>, marker: Marker, since: Time) {
    exists c :: c in comments && marker in c.marks && c.at >= since
  }

  /** Every such comment is at least that old. */
  ghost predicate AllOlder(comments: seq<Comment>, marker: Marker, since: Time, now: Time, age: int) {
    forall c :: c in comments && marker in c.marks && c.at >= since ==> now - c.at >= age
  }

  /**
   What is due for a stale draft, by the marker comments since its last activity. A closing comes
   directly after its close comment, or alone when that is already there; a draft that was warned
   less than a week ago waits; the others are warned.
   */
  ghost function WritesDue(number: nat, activity: Time, comments: seq<Comment>, now: Time): (es: seq<Effect>) {
    if HasMarked(comments, CloseMarker, activity) then [ClosePr(number)]
    else if !HasMarked(comments, WarningMarker, activity) then [Post(number, WarningMarker)]
    else if AllOlder(comments, WarningMarker, activity, now, 7 * 24 * 60 * 60) then [Post(number, CloseMarker), ClosePr(number)]
    else []
  }

  lemma WritesAreDue(number: nat, activity: Time, comments: seq<Comment>, now: Time)
    ensures EffectsOf(number, DraftAction(activity, comments, now)) == WritesDue(number, activity, comments, now)
  {
    assert forall c, m: Marker :: Marked(c, m, activity) <==> m in c.marks && c.at >= activity;
    assert LatestMarkerAt(comments, CloseMarker, activity).Some? <==> HasMarked(comments, CloseMarker, activity);
    var warning := LatestMarkerAt(comments, WarningMarker, activity);
    assert warning.Some? <==> HasMarked(comments, WarningMarker, activity);
    if warning.Some? {
      assert AllOlder(comments, WarningMarker, activity, now, DRAFT_CLOSE_AFTER_WARNING)
        <==> now - warning.value >= DRAFT_CLOSE_AFTER_WARNING;
    }
  }

  /** The writes for a list of stale drafts, in order. */
  ghost function AllDue(stale: seq<(PullRequest, Time)>, comments: map<nat, seq<Comment>>, now: Time): (es: seq<Effect>)
    requires forall s :: s in stale ==> s.0.number in comments
  {
    if stale == [] then []
    else
      var s := stale[|stale| - 1];
      AllDue(stale[..|stale| - 1], comments, now) + WritesDue(s.0.number, s.1, comments[s.0.number], now)
  }

  /** How many pull requests the writes close. */
  function Closings(es: seq<Effect>): (n: nat) {
    if es == [] then 0 else Closings(es[..|es| - 1]) + if es[|es| - 1].ClosePr? then 1 else 0
  }

  /** How many warnings the writes post. */
  function Warnings(es: seq<Effect>): (n: nat) {
    if es == [] then 0
    else Warnings(es[..|es| - 1]) + if es[|es| - 1].Post? && es[|es| - 1].marker == WarningMarker then 1 else 0
  }

  lemma {:induction false} CountAppend(a: seq<Effect>, b: seq<Effect>)
    ensures Closings(a + b) == Closings(a) + Closings(b)
    ensures Warnings(a + b) == Warnings(a) + Warnings(b)
  {
    if b == [] {
      assert a + b == a;
    } else {
      CountAppend(a, b[..|b| - 1]);
      assert (a + b)[..|a + b| - 1] == a + b[..|b| - 1];
    }
  }

  lemma CountOf(number: nat, action: Option<Action>)
    requires action.Some? && !action.value.close ==> action.value.comment == Some(WarningMarker)
    requires action.Some? && action.value.close ==> action.value.comment != Some(WarningMarker)
    ensures Closings(EffectsOf(number, action)) == if action.Some? && action.value.close then 1 else 0
    ensures Warnings(EffectsOf(number, action)) == if action.Some? && !action.value.close then 1 else 0
  {
    if action.Some? && action.value.comment.Some? {
      var post := Post(number, action.value.comment.value);
      CountAppend([post], if action.value.close then [ClosePr(number)] else []);
      CountOne(post);
    }
    CountOne(ClosePr(number));
  }

  lemma CountOne(e: Effect)
    ensures Closings([e]) == if e.ClosePr? then 1 else 0
    ensures Warnings([e]) == if e.Post? && e.marker == WarningMarker then 1 else 0
  {
    assert [e][..0] == [];
  }

  lemma EffectsExtend(stale: seq<(PullRequest, Time)>, comments: map<nat, seq<Comment>>, now: Time, i: nat)
    requires forall s :: s in stale ==> s.0.number in comments
    requires i < |stale|
    ensures var es := AllDue(stale[..i], comments, now);
            var action := DraftAction(stale[i].1, comments[stale[i].0.number], now);
            && AllDue(stale[..i + 1], comments, now) == es + EffectsOf(stale[i].0.number, action)
            && Closings(AllDue(stale[..i + 1], comments, now))
               == Closings(es) + (if action.Some? && action.value.close then 1 else 0)
            && Warnings(AllDue(stale[..i + 1], comments, now))
               == Warnings(es) + (if action.Some? && !action.value.close then 1 else 0)
  {
    var action := DraftAction(stale[i].1, comments[stale[i].0.number], now);
    assert stale[..i + 1][..i] == stale[..i];
    WritesAreDue(stale[i].0.number, stale[i].1, comments[stale[i].0.number], now);
    CountAppend(AllDue(stale[..i], comments, now), EffectsOf(stale[i].0.number, action));
    CountOf(stale[i].0.number, action);
  }

  /** Posts the comment, if any, and then closes, if it should. */
  method PerformAction(number: nat, action: Action) returns (writes: seq<Effect>)
    ensures writes == EffectsOf(number, Some(action))
  {
    writes := [];
    if action.comment.Some? {
      writes := [Post(number, action.comment.value)];
    }
    if action.close {
      writes := writes + [ClosePr(number)];
    }
  }

  /** The sweep: every write, in order, and the counts it reports; a dry run writes nothing. */
  method WarnOrClose(stale: seq<(PullRequest, Time)>, comments: map<nat, seq<Comment>>, now: Time, dryRun: bool)
      returns (effects: seq<Effect>, warned: nat, closed: nat)
    requires forall s :: s in stale ==> s.0.number in comments
    ensures effects == if dryRun then [] else AllDue(stale, comments, now)
    ensures warned == Warnings(AllDue(stale, comments, now))
    ensures closed == Closings(AllDue(stale, comments, now))
  {
    effects, warned, closed := [], 0, 0;
    for i := 0 to |stale|
      invariant effects == if dryRun then [] else AllDue(stale[..i], comments, now)
      invariant warned == Warnings(AllDue(stale[..i], comments, now))
      invariant closed == Closings(AllDue(stale[..i], comments, now))
    {
      var number := stale[i].0.number;
      var action := DraftAction(stale[i].1, comments[number], now);
      EffectsExtend(stale, comments, now, i);
      if action.None? {
        assert EffectsOf(number, action) == [];
        continue;
      }
      if action.value.close {
        closed := closed + 1;
      } else {
        warned := warned + 1;
      }
      if !dryRun {
        var writes := PerformAction(number, action.value);
        effects := effects + writes;
      }
    }
    assert stale[..|stale|] == stale;
  }
}
