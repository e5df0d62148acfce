/**
 Overlapping launches (crates/etw_tracing/etw_tracing.rs:202-238). Only an installed session stops
 a new launch, and a launch that succeeds installs its session over whatever is there. This module
 says exactly when a start is safe.
 */
module EtwOverlap {
  import opened Prelude
  import opened EtwProtocol
  import opened EtwSafety

  /** The process of a launch may still have Started as its first line. */
  predicate CanReport(p: Proc) {
    p.taken == 0 && if p.emitted == [] then p.pc.Booting? || p.pc.Armed? else p.emitted[0] == Message(Started)
  }

  /** A launch in progress that can still succeed. */
  predicate Pending(w: World, id: nat) {
    id in w.app.launching && id < |w.procs| && CanReport(w.procs[id])
  }

  ghost predicate NothingPending(w: World) {
    forall id: nat :: !Pending(w, id)
  }

  /** No recording is started while an earlier launch can still succeed. */
  ghost predicate NoOverlap(w: World, run: seq<Event>)
    requires Possible(w, run)
    decreases |run|
  {
    run == [] || ((run[0].StartPressed? ==> NothingPending(w)) && NoOverlap(Step(w, run[0]), run[1..]))
  }

  /** Whatever is being waited for can be controlled: its session is the one installed. */
  ghost predicate ReadersControlled(a: App) {
    forall id :: id in a.watching ==> a.session.Some? && a.session.value.id == id
  }

  /** At most one recording is launched or read at a time. */
  ghost predicate OneAtATime(w: World) {
    && ReadersControlled(w.app)
    && (w.app.session.Some? ==> NothingPending(w))
    && forall id: nat, jd: nat :: Pending(w, id) && Pending(w, jd) ==> id == jd
  }

  /** A process that can no longer report Started never can again. */
  lemma CanReportFades(p: Proc, i: SubInput)
    requires SubEnabled(p, i) && StartedFirst(p) && !CanReport(p)
    ensures !CanReport(SubStep(p, i))
  {
    var q := SubStep(p, i);
    if p.emitted != [] {
      assert q.emitted[0] == p.emitted[0];
    }
  }

  /** Nothing becomes able to report, and nobody starts to be read. */
  lemma CalmKeeps(w: World, v: World)
    requires OneAtATime(w)
    requires |v.procs| == |w.procs| && v.app.launching <= w.app.launching && v.app.watching == w.app.watching
    requires v.app.session.Some? <==> w.app.session.Some?
    requires w.app.session.Some? ==> v.app.session.value.id == w.app.session.value.id
    requires forall k :: 0 <= k < |w.procs| && CanReport(v.procs[k]) ==> CanReport(w.procs[k])
    ensures OneAtATime(v)
  {
    assert forall k: nat :: Pending(v, k) ==> Pending(w, k);
  }

  lemma SubprocessOneAtATime(w: World, id: nat, i: SubInput)
    requires Inv(w) && OneAtATime(w) && id < |w.procs| && SubEnabled(w.procs[id], i)
    ensures OneAtATime(Step(w, Subprocess(id, i)))
  {
    if !CanReport(w.procs[id]) {
      CanReportFades(w.procs[id], i);
    }
    CalmKeeps(w, Step(w, Subprocess(id, i)));
  }

  lemma LaunchOneAtATime(w: World, id: nat)
    requires Inv(w) && OneAtATime(w) && id in w.app.launching && Unread(w, id)
    ensures OneAtATime(Step(w, LaunchReads(id)))
  {
    var v := Step(w, LaunchReads(id));
    assert !CanReport(v.procs[id]);
    if NextStatus(w, id) == Some(Started) {
      assert Pending(w, id);
      assert forall k: nat :: Pending(v, k) ==> Pending(w, k) && k != id;
      assert w.app.session.None? && w.app.watching == {};
    } else {
      CalmKeeps(w, v);
    }
  }

  lemma StartOneAtATime(w: World)
    requires Inv(w) && OneAtATime(w) && NothingPending(w)
    ensures OneAtATime(Step(w, StartPressed))
  {
    var v := Step(w, StartPressed);
    assert forall k: nat :: k < |w.procs| ==> v.procs[k] == w.procs[k];
    assert forall k: nat :: Pending(v, k) && k < |w.procs| ==> Pending(w, k);
  }

  lemma WatcherOneAtATime(w: World, e: Event)
    requires Inv(w) && OneAtATime(w) && Enabled(w, e) && (e.WatcherReads? || e.WatcherFails?)
    ensures OneAtATime(Step(w, e))
  {
    assert w.app.watching == {e.id};
    assert forall k: nat :: Pending(Step(w, e), k) ==> Pending(w, k);
  }

  lemma StepOneAtATime(w: World, e: Event)
    requires Inv(w) && OneAtATime(w) && Enabled(w, e)
    requires e.StartPressed? ==> NothingPending(w)
    ensures OneAtATime(Step(w, e))
  {
    match e
    case StartPressed => StartOneAtATime(w);
    case LaunchReads(id) => LaunchOneAtATime(w, id);
    case Subprocess(id, i) => SubprocessOneAtATime(w, id, i);
    case WatcherReads(id) => WatcherOneAtATime(w, e);
    case WatcherFails(id) => WatcherOneAtATime(w, e);
    case _ => CalmKeeps(w, Step(w, e));
  }

  lemma {:induction false} RunOneAtATime(w: World, run: seq<Event>)
    requires Inv(w) && OneAtATime(w) && Possible(w, run) && NoOverlap(w, run)
    ensures OneAtATime(After(w, run))
    decreases |run|
  {
    if run != [] {
      StepOneAtATime(w, run[0]);
      StepKeeps(w, run[0]);
      RunOneAtATime(Step(w, run[0]), run[1..]);
    }
  }

  // ---- Results -----------------------------------------------------------------

  /** While no start overlaps a launch that can succeed, the session installed is the one whose status is read. */
  lemma ReaderHasSession(run: seq<Event>, id: nat)
    requires Possible(Init(), run) && NoOverlap(Init(), run)
    requires id in After(Init(), run).app.watching
    ensures var session := After(Init(), run).app.session;
            session.Some? && session.value.id == id
  {
    RunOneAtATime(Init(), run);
  }

  lemma {:induction false} ExtendCalm(w: World, run: seq<Event>, e: Event)
    requires Possible(w, run) && Enabled(After(w, run), e) && !e.StartPressed? && NoOverlap(w, run)
    ensures Possible(w, run + [e]) && NoOverlap(w, run + [e]) && After(w, run + [e]) == Step(After(w, run), e)
    decreases |run|
  {
    if run == [] {
      assert [e][1..] == [];
    } else {
      ExtendCalm(Step(w, run[0]), run[1..], e);
      assert (run + [e])[1..] == run[1..] + [e];
    }
  }

  /** A launch that can still succeed does, and replaces the session, whatever it was. */
  lemma LaunchLive(w0: World, before: seq<Event>, id: nat) returns (run: seq<Event>)
    requires Possible(w0, before) && NoOverlap(w0, before)
    requires Pending(After(w0, before), id)
    ensures Possible(w0, run) && NoOverlap(w0, run)
    ensures var w, v := After(w0, before), After(w0, run);
            && v.app == LaunchSucceeded(w.app, id) && |v.procs| == |w.procs|
            && (w.procs[id] == NewProc() ==> v.procs[id].pc == Waiting)
            && forall k :: 0 <= k < |w.procs| && k != id ==> v.procs[k] == w.procs[k]
  {
    run := before;
    if After(w0, run).procs[id].emitted == [] {
      if After(w0, run).procs[id].pc.Booting? {
        ExtendCalm(w0, run, Subprocess(id, StartSucceeds));
        run := run + [Subprocess(id, StartSucceeds)];
      }
      ExtendCalm(w0, run, Subprocess(id, SendResult(Delivered)));
      run := run + [Subprocess(id, SendResult(Delivered))];
    }
    ExtendCalm(w0, run, LaunchReads(id));
    run := run + [LaunchReads(id)];
  }

  /** Two sessions at once: the first to end takes the other's session with it. */
  lemma EndFirst(w0: World, before: seq<Event>, first: nat) returns (run: seq<Event>)
    requires Possible(w0, before) && NoOverlap(w0, before) && first in After(w0, before).app.watching
    ensures Possible(w0, run) && NoOverlap(w0, run)
    ensures var w, v := After(w0, before), After(w0, run);
            && v.app.session.None? && v.app.watching == w.app.watching - {first}
            && v.app.launching == w.app.launching && v.procs == w.procs
  {
    ExtendCalm(w0, before, WatcherFails(first));
    run := before + [WatcherFails(first)];
  }

  /** No session of this launch is installed, and none is to come. */
  predicate Uncontrolled(w: World, id: nat) {
    id < |w.procs| && id !in w.app.launching && (w.app.session.Some? ==> w.app.session.value.id != id)
  }

  lemma StepUncontrolled(w: World, e: Event, id: nat)
    requires Uncontrolled(w, id) && Enabled(w, e)
    ensures Uncontrolled(Step(w, e), id) && Step(w, e).procs[id].attempts == w.procs[id].attempts
  {
  }

  /** Whatever happens from there on, no command is ever sent to it again. */
  lemma {:induction false} StaysUncontrolled(w: World, run: seq<Event>, id: nat)
    requires Uncontrolled(w, id) && Possible(w, run)
    ensures Uncontrolled(After(w, run), id) && After(w, run).procs[id].attempts == w.procs[id].attempts
    decreases |run|
  {
    if run != [] {
      StepUncontrolled(w, run[0], id);
      StaysUncontrolled(Step(w, run[0]), run[1..], id);
    }
  }

  /** With no session installed, the second recording is still running, and no later run can send it a command. */
  lemma SecondLosesSession(w: World, id: nat) returns (rest: seq<Event>)
    requires Inv(w) && Pending(w, id) && w.app.session.None?
    ensures var v := Step(w, StartPressed);
            && Possible(v, rest) && NoOverlap(v, rest)
            && Orphaned(After(v, rest)) && |w.procs| in After(v, rest).app.watching
            && Uncontrolled(After(v, rest), |w.procs|) && After(v, rest).procs[|w.procs|].pc == Waiting
  {
    var v := Step(w, StartPressed);
    assert v.procs[|w.procs|] == NewProc() && v.procs[id] == w.procs[id];
    rest := LaunchLive(v, [], id);
    rest := LaunchLive(v, rest, |w.procs|);
    rest := EndFirst(v, rest, id);
  }

  /** With a session installed, the launch replaces it, and the end of that session drops the new one. */
  lemma FirstLosesSession(w: World, id: nat) returns (rest: seq<Event>)
    requires Inv(w) && Pending(w, id) && w.app.session.Some?
    ensures var v := Step(w, StartPressed);
            Possible(v, rest) && NoOverlap(v, rest) && Orphaned(After(v, rest))
  {
    var v := Step(w, StartPressed);
    rest := LaunchLive(v, [], id);
    assert id in After(v, rest).app.watching;
    rest := EndFirst(v, rest, w.app.session.value.id);
    assert id in After(v, rest).app.watching;
  }

  /** A recording is waited for, and no session is installed. */
  predicate Orphaned(w: World) {
    w.app.session.None? && w.app.watching != {}
  }

  /**
   After any run that ends while a launch can still succeed, pressing start again can lead to a
   recording that is waited for without a session.
   */
  lemma OverlapLosesSession(before: seq<Event>, id: nat) returns (rest: seq<Event>)
    requires Possible(Init(), before) && Pending(After(Init(), before), id)
    ensures var v := Step(After(Init(), before), StartPressed);
            Possible(v, rest) && NoOverlap(v, rest) && Orphaned(After(v, rest))
  {
    RunKeeps(Init(), before);
    var w := After(Init(), before);
    if w.app.session.None? {
      rest := SecondLosesSession(w, id);
    } else {
      rest := FirstLosesSession(w, id);
    }
  }

  /** However it goes on without a further overlap, every recording that is waited for stays controlled. */
  ghost predicate SafeStart(w: World) {
    forall rest :: Possible(Step(w, StartPressed), rest) && NoOverlap(Step(w, StartPressed), rest) ==>
      ReadersControlled(After(Step(w, StartPressed), rest).app)
  }

  /** After a run without overlap, a start is safe exactly when no launch in progress can still succeed. */
  lemma StartSafeIff(before: seq<Event>)
    requires Possible(Init(), before) && NoOverlap(Init(), before)
    ensures SafeStart(After(Init(), before)) <==> NothingPending(After(Init(), before))
  {
    var w := After(Init(), before);
    RunKeeps(Init(), before);
    RunOneAtATime(Init(), before);
    StepKeeps(w, StartPressed);
    if NothingPending(w) {
      StartOneAtATime(w);
      forall rest | Possible(Step(w, StartPressed), rest) && NoOverlap(Step(w, StartPressed), rest)
        ensures ReadersControlled(After(Step(w, StartPressed), rest).app)
      {
        RunOneAtATime(Step(w, StartPressed), rest);
      }
    } else {
      var id :| Pending(w, id);
      var rest := OverlapLosesSession(before, id);
      var k :| k in After(Step(w, StartPressed), rest).app.watching;
      assert !ReadersControlled(After(Step(w, StartPressed), rest).app);
    }
  }
}
