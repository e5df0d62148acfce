/**
 The runs of the stale draft sweep rest on its writes (script/github-pr-cleanup.py:231-283): replaying
 what the sweep writes for one pull request gives the step of its history, and stopping before the
 last write gives the step that crashes.
 */
module PrWrites {
  import opened Prelude
  import opened PrCleanup
  import opened PrSafety

  /** What the host keeps of one write. */
  function Write(h: History, e: Effect, at: Time): (r: History) {
    match e
    case Post(_, marker) => h.(comments := h.comments + [Comment({marker}, at)])
    case ClosePr(_) => h.(open := false, closings := h.closings + [at])
  }

  function Replay(h: History, es: seq<Effect>, at: Time): (r: History) {
    if es == [] then h else Write(Replay(h, es[..|es| - 1], at), es[|es| - 1], at)
  }

  /** The writes that concern one pull request. */
  function About(es: seq<Effect>, number: nat): (r: seq<Effect>) {
    if es == [] then []
    else
      var before := About(es[..|es| - 1], number);
      if es[|es| - 1].number == number then before + [es[|es| - 1]] else before
  }

  lemma {:induction false} AboutConcat(a: seq<Effect>, b: seq<Effect>, number: nat)
    ensures About(a + b, number) == About(a, number) + About(b, number)
  {
    if b == [] {
      assert a + b == a;
    } else {
      AboutConcat(a, b[..|b| - 1], number);
      assert (a + b)[..|a + b| - 1] == a + b[..|b| - 1];
    }
  }

  lemma AboutDue(n: nat, number: nat, activity: Time, comments: seq<Comment>, now: Time)
    ensures var es := WritesDue(n, activity, comments, now);
            About(es, number) == if n == number then es else []
  {
    var es := WritesDue(n, activity, comments, now);
    AboutTwo(es, number);
  }

  lemma AboutTwo(es: seq<Effect>, number: nat)
    requires |es| <= 2 && forall e :: e in es ==> e.number == es[0].number
    ensures About(es, number) == if es != [] && es[0].number == number then es else []
  {
    if |es| == 1 {
      assert es[..0] == [];
    } else if |es| == 2 {
      assert es[..1][..0] == [] && es[..1][0] == es[0];
      assert es == es[..1] + [es[1]];
    }
  }

  lemma {:induction false} StaleAmong(prs: seq<PullRequest>, now: Time)
    ensures forall s :: s in StaleDrafts(prs, now) ==> s.0 in prs
  {
    if prs != [] {
      StaleAmong(prs[..|prs| - 1], now);
    }
  }

  ghost predicate Fetched(prs: seq<PullRequest>, comments: map<nat, seq<Comment>>) {
    forall pr :: pr in prs ==> pr.number in comments
  }

  /** All writes of a sweep over these pull requests. */
  ghost function SweepWrites(prs: seq<PullRequest>, comments: map<nat, seq<Comment>>, now: Time): (es: seq<Effect>)
    requires Fetched(prs, comments)
  {
    StaleAmong(prs, now);
    AllDue(StaleDrafts(prs, now), comments, now)
  }

  /** What is due for one pull request. */
  ghost function PrWrites(pr: PullRequest, comments: seq<Comment>, now: Time): (es: seq<Effect>) {
    if Stale(pr, now) then WritesDue(pr.number, LatestDraftActivityAt(pr).value, comments, now) else []
  }

  lemma SweepWritesLast(prs: seq<PullRequest>, comments: map<nat, seq<Comment>>, now: Time)
    requires Fetched(prs, comments) && prs != []
    ensures var pr := prs[|prs| - 1];
            SweepWrites(prs, comments, now)
            == SweepWrites(prs[..|prs| - 1], comments, now) + PrWrites(pr, comments[pr.number], now)
  {
    var pr, before := prs[|prs| - 1], StaleDrafts(prs[..|prs| - 1], now);
    StaleAmong(prs[..|prs| - 1], now);
    StaleAmong(prs, now);
    if Stale(pr, now) {
      var stale := before + [(pr, LatestDraftActivityAt(pr).value)];
      assert stale[..|stale| - 1] == before;
    } else {
      assert StaleDrafts(prs, now) == before;
    }
  }

  lemma AboutLast(prs: seq<PullRequest>, comments: map<nat, seq<Comment>>, now: Time, number: nat)
    requires Fetched(prs, comments) && prs != []
    ensures var pr := prs[|prs| - 1];
            About(SweepWrites(prs, comments, now), number)
            == About(SweepWrites(prs[..|prs| - 1], comments, now), number)
               + if pr.number == number then PrWrites(pr, comments[pr.number], now) else []
  {
    var pr := prs[|prs| - 1];
    SweepWritesLast(prs, comments, now);
    AboutConcat(SweepWrites(prs[..|prs| - 1], comments, now), PrWrites(pr, comments[pr.number], now), number);
    if Stale(pr, now) {
      AboutDue(pr.number, number, LatestDraftActivityAt(pr).value, comments[pr.number], now);
    }
  }

  lemma {:induction false} AboutOthers(prs: seq<PullRequest>, comments: map<nat, seq<Comment>>, now: Time, number: nat)
    requires Fetched(prs, comments) && forall pr :: pr in prs ==> pr.number != number
    ensures About(SweepWrites(prs, comments, now), number) == []
  {
    if prs != [] {
      AboutOthers(prs[..|prs| - 1], comments, now, number);
      AboutLast(prs, comments, now, number);
    }
  }

  /** It is there, and no other has its number. */
  ghost predicate ListedOnce(prs: seq<PullRequest>, pr: PullRequest) {
    exists i :: 0 <= i < |prs| && prs[i] == pr && forall j :: 0 <= j < |prs| && j != i ==> prs[j].number != pr.number
  }

  /** The writes of the whole sweep that concern one pull request are those due for it. */
  lemma {:induction false} AboutOne(prs: seq<PullRequest>, comments: map<nat, seq<Comment>>, now: Time, pr: PullRequest)
    requires Fetched(prs, comments) && ListedOnce(prs, pr)
    ensures pr.number in comments
    ensures About(SweepWrites(prs, comments, now), pr.number) == PrWrites(pr, comments[pr.number], now)
  {
    var init := prs[..|prs| - 1];
    AboutLast(prs, comments, now, pr.number);
    var i :| 0 <= i < |prs| && prs[i] == pr && forall j :: 0 <= j < |prs| && j != i ==> prs[j].number != pr.number;
    if i == |prs| - 1 {
      AboutOthers(init, comments, now, pr.number);
    } else {
      assert init[i] == pr;
      AboutOne(init, comments, now, pr);
    }
  }

  // ---- The steps of a history --------------------------------------------------

  /**
   All writes are the sweep's step; without the last one, when that is a closing, they are the step that
   crashes; every shorter part leaves the pull request as it is.
   */
  ghost predicate Performs(es: seq<Effect>, h: History, now: Time, at: Time) {
    var before := h.(clock := at);
    && Replay(before, es, at) == Step(h, Swept(now, false, at))
    && (es != [] && es[|es| - 1].ClosePr? ==> Replay(before, es[..|es| - 1], at) == Step(h, Swept(now, true, at)))
    && forall k :: 0 <= k < |es| ==> Replay(before, es[..k], at) in {before, Step(h, Swept(now, true, at))}
  }

  lemma ReplayTwo(h: History, a: Effect, b: Effect, at: Time)
    ensures Replay(h, [a], at) == Write(h, a, at)
    ensures Replay(h, [a, b], at) == Write(Write(h, a, at), b, at)
    ensures [a, b][..1] == [a] && [a][..0] == [] && [a, b][..0] == []
  {
    assert [a][..0] == [] && [a, b][..1] == [a];
    assert Replay(h, [a], at) == Write(h, a, at);
  }

  /** One action: its writes give the step, without the last the crash. */
  lemma ActionPerforms(h: History, action: Option<Action>, at: Time)
    requires action.Some? ==> action.value in {Action(None, true), Action(Some(CloseMarker), true), Action(Some(WarningMarker), false)}
    ensures var es := EffectsOf(0, action);
            && Replay(h, es, at) == Acted(h, action, false, at)
            && (es != [] && es[|es| - 1].ClosePr? ==> Replay(h, es[..|es| - 1], at) == Acted(h, action, true, at))
            && forall k :: 0 <= k < |es| ==> Replay(h, es[..k], at) in {h, Acted(h, action, true, at)}
  {
    if action == Some(Action(None, true)) {
      ReplayTwo(h, ClosePr(0), ClosePr(0), at);
    } else if action.Some? {
      ReplayTwo(h, Post(0, action.value.comment.value), ClosePr(0), at);
    }
  }

  lemma WritesPerform(h: History, now: Time, at: Time)
    ensures Performs(PrWrites(View(h), h.comments, now), h, now, at)
  {
    var pr := View(h);
    if Stale(pr, now) {
      WritesAreDue(pr.number, LatestDraftActivityAt(pr).value, h.comments, now);
    }
    ActionPerforms(h.(clock := at), SweepPr(pr, h.comments, now), at);
  }

  /** A whole sweep: fetches, finds the stale drafts and writes. For every history it is the step of the model. */
  method Run(prs: seq<PullRequest>, comments: map<nat, seq<Comment>>, now: Time, dryRun: bool)
      returns (effects: seq<Effect>, warned: nat, closed: nat)
    requires Fetched(prs, comments)
    ensures dryRun ==> effects == []
    ensures !dryRun ==> warned == Warnings(effects) && closed == Closings(effects)
    ensures !dryRun ==>
              forall h, at :: ListedOnce(prs, View(h)) && comments[0] == h.comments ==>
                Performs(About(effects, 0), h, now, at)
  {
    var stale, places := FindStaleDrafts(prs, now);
    StaleAmong(prs, now);
    effects, warned, closed := WarnOrClose(stale, comments, now, dryRun);
    if !dryRun {
      forall h, at | ListedOnce(prs, View(h)) && comments[0] == h.comments
        ensures Performs(About(effects, 0), h, now, at)
      {
        AboutOne(prs, comments, now, View(h));
        WritesPerform(h, now, at);
      }
    }
  }
}
