/**
 Whose path is sent (crates/etw_tracing/etw_tracing.rs:114-178). A dialog that returns is matched
 only against the state of the installed session. This module says exactly when the path that is
 sent was chosen in a dialog of the session it is sent in.
 */
module EtwDialogs {
  import opened Prelude
  import opened EtwProtocol
  import opened EtwOverlap

  /** Every open dialog was opened by the installed session. */
  ghost predicate OwnDialogs(a: App) {
    a.session.Some? ==> forall tag :: tag in a.dialogs ==> tag == a.session.value.id
  }

  predicate IsRecording(a: App) {
    a.session.Some? && a.session.value.state.Recording?
  }

  /** Every save that opens a dialog finds no dialog of another session open. */
  ghost predicate FreshDialogs(w: World, run: seq<Event>)
    requires Possible(w, run)
    decreases |run|
  {
    run == [] ||
    (&& (run[0].SavePressed? && IsRecording(w.app) ==> OwnDialogs(w.app))
     && FreshDialogs(Step(w, run[0]), run[1..]))
  }

  /** A dialog of another session sends its path in the installed one. */
  predicate ForeignSave(w: World, e: Event)
    requires Enabled(w, e)
  {
    && e.DialogReturns? && w.app.session.Some? && e.tag != w.app.session.value.id
    && DialogReturned(w.app, e.tag, e.picked, e.send).attempt.Some?
  }

  ghost predicate OwnPaths(w: World, run: seq<Event>)
    requires Possible(w, run)
    decreases |run|
  {
    run == [] || (!ForeignSave(w, run[0]) && OwnPaths(Step(w, run[0]), run[1..]))
  }

  /** While a path is awaited, every open dialog is the session's own. */
  ghost predicate ChoosingOwn(a: App) {
    a.session.Some? && a.session.value.state.ChoosingOutputPath? ==> OwnDialogs(a)
  }

  lemma StepChoosingOwn(w: World, e: Event)
    requires Enabled(w, e) && ChoosingOwn(w.app)
    requires e.SavePressed? && IsRecording(w.app) ==> OwnDialogs(w.app)
    ensures ChoosingOwn(Step(w, e).app) && !ForeignSave(w, e)
  {
  }

  lemma {:induction false} RunOwnPaths(w: World, run: seq<Event>)
    requires ChoosingOwn(w.app) && Possible(w, run) && FreshDialogs(w, run)
    ensures OwnPaths(w, run)
    decreases |run|
  {
    if run != [] {
      StepChoosingOwn(w, run[0]);
      RunOwnPaths(Step(w, run[0]), run[1..]);
    }
  }

  // ---- Results -----------------------------------------------------------------

  /**
   In every run, overlapping launches included, in which saves find no dialog of another session
   open, every path that is sent was chosen in a dialog of the session it is sent in.
   */
  lemma PathsAreOwn(run: seq<Event>)
    requires Possible(Init(), run) && FreshDialogs(Init(), run)
    ensures OwnPaths(Init(), run)
  {
    RunOwnPaths(Init(), run);
  }

  /** However it goes on without another such save, every path sent is the session's own. */
  ghost predicate SafeSave(w: World) {
    forall rest :: Possible(Step(w, SavePressed), rest) && FreshDialogs(Step(w, SavePressed), rest) ==>
      OwnPaths(Step(w, SavePressed), rest)
  }

  /** A dialog of another session that is open when a save opens its own can return first and send its path. */
  lemma ForeignDialogSends(w: World, tag: nat, path: Path, send: Send)
    requires IsRecording(w.app) && tag in w.app.dialogs && tag != w.app.session.value.id
    ensures var v := Step(w, SavePressed);
            && Enabled(v, DialogReturns(tag, Chose(path), send)) && ForeignSave(v, DialogReturns(tag, Chose(path), send))
            && DialogReturned(v.app, tag, Chose(path), send).attempt == Some(Attempt(Save(path), send))
  {
  }

  /** A save in a recording session is safe exactly when every open dialog is the session's own. */
  lemma SaveSafeIff(w: World)
    requires IsRecording(w.app)
    ensures SafeSave(w) <==> OwnDialogs(w.app)
  {
    var v := Step(w, SavePressed);
    if OwnDialogs(w.app) {
      StepChoosingOwn(w, SavePressed);
      forall rest | Possible(v, rest) && FreshDialogs(v, rest)
        ensures OwnPaths(v, rest)
      {
        RunOwnPaths(v, rest);
      }
    } else {
      var tag :| tag in w.app.dialogs && tag != w.app.session.value.id;
      var e := DialogReturns(tag, Chose(""), Delivered);
      ForeignDialogSends(w, tag, "", Delivered);
      assert [e][1..] == [];
      assert Possible(v, [e]) && FreshDialogs(v, [e]) && !OwnPaths(v, [e]);
    }
  }

  // ---- Such saves are reachable --------------------------------------------------

  /** Brings up a recording, from the command to the installed session. */
  lemma BringUp(before: seq<Event>) returns (run: seq<Event>)
    requires Possible(Init(), before) && NoOverlap(Init(), before)
    requires var a := After(Init(), before).app; a.session.None? && a.launching == {}
    ensures Possible(Init(), run) && NoOverlap(Init(), run)
    ensures var w, v := After(Init(), before), After(Init(), run);
            && v.app.session == Some(Session(|w.procs|, Recording)) && v.app.launching == {}
            && v.app.dialogs == w.app.dialogs && v.app.watching == w.app.watching + {|w.procs|}
            && |v.procs| == |w.procs| + 1
  {
    ExtendStart(Init(), before);
    run := LaunchLive(Init(), before + [StartPressed], |After(Init(), before).procs|);
  }

  lemma {:induction false} ExtendStart(w: World, run: seq<Event>)
    requires Possible(w, run) && NoOverlap(w, run) && After(w, run).app.launching == {}
    ensures Possible(w, run + [StartPressed]) && NoOverlap(w, run + [StartPressed])
    ensures After(w, run + [StartPressed]) == Step(After(w, run), StartPressed)
    decreases |run|
  {
    if run == [] {
      assert [StartPressed][1..] == [];
    } else {
      ExtendStart(Step(w, run[0]), run[1..]);
      assert (run + [StartPressed])[1..] == run[1..] + [StartPressed];
    }
  }

  /** The session is left while its save dialog is still open. */
  lemma LeaveDialogOpen(before: seq<Event>) returns (run: seq<Event>)
    requires Possible(Init(), before) && NoOverlap(Init(), before)
    requires var a := After(Init(), before).app;
             IsRecording(a) && a.launching == {} && a.session.value.id in a.watching
    ensures Possible(Init(), run) && NoOverlap(Init(), run)
    ensures var w, v := After(Init(), before), After(Init(), run);
            && v.app.session.None? && v.app.launching == {} && |v.procs| == |w.procs|
            && w.app.session.value.id in v.app.dialogs
  {
    var id := After(Init(), before).app.session.value.id;
    ExtendCalm(Init(), before, SavePressed);
    ExtendCalm(Init(), before + [SavePressed], CancelPressed(Delivered));
    ExtendCalm(Init(), before + [SavePressed] + [CancelPressed(Delivered)], WatcherFails(id));
    run := before + [SavePressed] + [CancelPressed(Delivered)] + [WatcherFails(id)];
  }

  /** Even without overlapping launches, a recording session can find a dialog of an earlier one open. */
  lemma StaleDialogWitness() returns (run: seq<Event>)
    ensures Possible(Init(), run) && NoOverlap(Init(), run)
    ensures IsRecording(After(Init(), run).app) && !OwnDialogs(After(Init(), run).app)
  {
    run := BringUp([]);
    run := LeaveDialogOpen(run);
    run := BringUp(run);
    assert 0 in After(Init(), run).app.dialogs;
  }
}
