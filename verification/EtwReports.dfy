/**
 What the subprocess reports, and what the app shows for it (crates/etw_tracing/etw_tracing.rs:62-92
 and 450-533): the final status says what the recorder did, and the notice says what the status said.
 */
module EtwReports {
  import opened Prelude
  import opened EtwProtocol
  import opened EtwSafety

  /** The status says exactly which save or cancel the recorder carried out. */
  ghost predicate Tells(s: Status, effects: seq<Effect>) {
    && (forall path :: s == Stopped(path) <==> WprSave(path, true) in effects)
    && (s == Cancelled <==> WprCancel(true) in effects)
    && !s.Started?
  }

  /** The subprocess has tried to send a final status that says so. */
  ghost predicate Reported(effects: seq<Effect>) {
    exists e :: e in effects && Terminal(e) && Tells(e.status, effects)
  }

  ghost predicate Truthful(p: Proc) {
    && (!p.pc.Exited? && !p.pc.Killed? ==> forall s :: Message(s) in p.emitted ==> s == Started)
    && (p.pc.Reporting? ==> Tells(p.pc.status, p.effects))
    && (p.pc.Failing? ==> Tells(Failure, p.effects))
    && (forall s :: Message(s) in p.emitted && s != Started ==> Tells(s, p.effects))
    && (p.pc.Exited? && RecorderStarted(p.effects) ==> Reported(p.effects))
  }

  /** Effects that carry out no command change nothing that a status tells. */
  lemma TellsKept(s: Status, fx: seq<Effect>, e: Effect)
    requires !(e.WprSave? && e.ok) && !(e.WprCancel? && e.ok)
    ensures Tells(s, fx + [e]) <==> Tells(s, fx)
  {
    assert forall path :: WprSave(path, true) in fx + [e] <==> WprSave(path, true) in fx;
  }

  lemma ActTruthful(p: Proc, c: Command, ok: bool)
    requires p.pc == Acting(c) && Discipline(p) && Truthful(p)
    ensures Truthful(Act(p, c, ok))
  {
    var fx := p.effects;
    var effect := match c case Cancel => WprCancel(ok) case Save(path) => WprSave(path, ok);
    CountsAppend(fx, effect);
    assert forall path :: WprSave(path, true) in fx + [effect] <==> effect == WprSave(path, true);
    if !ok {
      TellsKept(Failure, fx + [effect], GuardCancel);
    }
  }

  /** A recording in progress is given up: failure is what there is to tell. */
  lemma GuardTruthful(p: Proc)
    requires Held(p.effects) && forall s :: Message(s) in p.emitted ==> s == Started
    ensures Truthful(GuardedFailure(p))
  {
    TellsKept(Failure, p.effects, GuardCancel);
  }

  lemma ReportTruthful(p: Proc, status: Status, send: Send)
    requires Tells(status, p.effects) && forall s :: Message(s) in p.emitted ==> s == Started
    ensures Truthful(Emit(p, status, send).(pc := Exited))
  {
    var e := Sent(status, send);
    var q := Emit(p, status, send);
    TellsKept(status, p.effects, e);
    assert e == q.effects[|p.effects|];
    assert e in q.effects && Terminal(e);
  }

  lemma ArmedTruthful(p: Proc, send: Send)
    requires p.pc.Armed? && Discipline(p) && Truthful(p)
    ensures Truthful(SubStep(p, SendResult(send)))
  {
    var q := Emit(p, Started, send);
    CountsAppend(p.effects, Sent(Started, send));
    if send.Delivered? {
      assert Truthful(q.(pc := Waiting));
    } else {
      GuardTruthful(q);
    }
  }

  lemma SubStepTruthful(p: Proc, i: SubInput)
    requires SubEnabled(p, i) && Discipline(p) && Truthful(p)
    ensures Truthful(SubStep(p, i))
  {
    match p.pc
    case Booting =>
    case Armed =>
      ArmedTruthful(p, i.send);
    case Waiting =>
      GuardTruthful(p);
    case Acting(c) =>
      ActTruthful(p, c, i.ok);
    case Reporting(s) =>
      ReportTruthful(p, s, i.send);
    case Failing =>
      ReportTruthful(p, Failure, i.send);
  }

  ghost predicate AllTruthful(w: World) {
    forall id :: 0 <= id < |w.procs| ==> Truthful(w.procs[id])
  }

  /** Neither a command on the wire nor a line taken from it changes what the subprocess said or did. */
  lemma SameReports(p: Proc, q: Proc)
    requires Truthful(p) && q.emitted == p.emitted && q.effects == p.effects && (q.pc == p.pc || q.pc.Killed?)
    ensures Truthful(q)
  {
  }

  lemma StepTruthful(w: World, e: Event)
    requires Inv(w) && AllTruthful(w) && Enabled(w, e)
    ensures AllTruthful(Step(w, e))
  {
    var v := Step(w, e);
    forall id | 0 <= id < |v.procs|
      ensures Truthful(v.procs[id])
    {
      if id < |w.procs| {
        if e.Subprocess? && e.id == id {
          SubStepTruthful(w.procs[id], e.input);
        } else {
          SameReports(w.procs[id], v.procs[id]);
        }
      }
    }
  }

  lemma {:induction false} RunTruthful(w: World, run: seq<Event>)
    requires Inv(w) && AllTruthful(w) && Possible(w, run)
    ensures AllTruthful(After(w, run))
    decreases |run|
  {
    if run != [] {
      StepTruthful(w, run[0]);
      StepKeeps(w, run[0]);
      RunTruthful(Step(w, run[0]), run[1..]);
    }
  }

  // ---- Results -----------------------------------------------------------------

  /**
   In every run, whatever final status a subprocess sends or is about to send says exactly which save
   or cancel was carried out, and one that exits after starting has tried to send such a status.
   */
  lemma StatusIsTrue(run: seq<Event>, id: nat)
    requires Possible(Init(), run) && id < |After(Init(), run).procs|
    ensures var p := After(Init(), run).procs[id];
            && (forall s :: p.pc == Reporting(s) || (Message(s) in p.emitted && s != Started) ==> Tells(s, p.effects))
            && (p.pc.Exited? && RecorderStarted(p.effects) ==> Reported(p.effects))
  {
    RunTruthful(Init(), run);
  }

  /**
   In every run, when the reader reads the final line of a subprocess, the one notice that is added
   says what the recorder did: saved to exactly this path, cancelled, or failed.
   */
  lemma NoticeIsTrue(run: seq<Event>, id: nat)
    requires Possible(Init(), run) && Enabled(After(Init(), run), WatcherReads(id))
    ensures var w := After(Init(), run);
            var p, after := w.procs[id], Step(w, WatcherReads(id)).app.notices;
            && |after| == |w.app.notices| + 1 && after[..|w.app.notices|] == w.app.notices
            && var n := after[|w.app.notices|];
               if p.emitted[p.taken] == Garbage then n == CompletionFailed
               else
                 && (forall path :: n == SavedTo(path) <==> WprSave(path, true) in p.effects)
                 && (n == RecordingCancelled <==> WprCancel(true) in p.effects)
                 && (n == RecordingFailed <==> !EndedByCommand(p.effects))
  {
    var w := After(Init(), run);
    RunKeeps(Init(), run);
    RunTruthful(Init(), run);
    var p := w.procs[id];
    assert p.emitted[p.taken] in p.emitted;
    if p.emitted[p.taken].Message? {
      assert Tells(p.emitted[p.taken].message, p.effects);
    }
  }

  // ---- The app's handlers ----------------------------------------------------------

  /** The state of the installed session. */
  function StateOf(a: App): (s: Option<SessionState>) {
    if a.session.None? then None else Some(a.session.value.state)
  }

  /** A command is attempted exactly by a chosen path in a choosing session and by a cancel before stopping. */
  lemma AttemptedIff(a: App, tag: nat, picked: Picked, send: Send, path: Path)
    ensures DialogReturned(a, tag, picked, send).attempt == Some(Attempt(Save(path), send)) <==>
              picked == Chose(path) && StateOf(a) == Some(ChoosingOutputPath)
    ensures DialogReturned(a, tag, picked, send).attempt.Some? ==> picked.Chose? && StateOf(a) == Some(ChoosingOutputPath)
    ensures CancelRecording(a, send).attempt
            == if StateOf(a) in [Some(Recording), Some(ChoosingOutputPath)] then Some(Attempt(Cancel, send)) else None
  {
  }

  /** A delivered command leaves the session stopping, a failed one recording; a dialog that is given up, recording too. */
  lemma StateAfterAttempt(a: App, tag: nat, picked: Picked, send: Send)
    ensures var h := DialogReturned(a, tag, picked, send);
            StateOf(h.app) == if StateOf(a) != Some(ChoosingOutputPath) then StateOf(a)
                              else if picked.Chose? && send == Delivered then Some(Stopping) else Some(Recording)
    ensures var h := CancelRecording(a, send);
            StateOf(h.app) == if StateOf(a) == None || StateOf(a) == Some(Stopping) then StateOf(a)
                              else if send == Delivered then Some(Stopping) else Some(Recording)
    ensures StateOf(PromptForOutputPath(a)) == if StateOf(a) == Some(Recording) then Some(ChoosingOutputPath) else StateOf(a)
    ensures StartRecording(a, tag).session == a.session
    ensures StartRecording(a, tag).launching == if a.session.Some? then a.launching else a.launching + {tag}
  {
  }

  /** What a handler adds to the notices. */
  function Added(a: App, b: App): (ns: seq<Notice>) {
    if |a.notices| <= |b.notices| then b.notices[|a.notices|..] else []
  }

  lemma AddedOne(a: App, n: Notice)
    ensures forall b: App :: b.notices == a.notices + [n] ==> Added(a, b) == [n]
    ensures forall b: App :: b.notices == a.notices ==> Added(a, b) == []
  {
    assert (a.notices + [n])[|a.notices|..] == [n];
  }

  /** The notices of the buttons, by the state they meet. */
  lemma ButtonNotices(a: App, id: nat, send: Send)
    ensures Added(a, PromptForOutputPath(a))
            == match StateOf(a)
               case None => [NothingToStop]
               case Some(Recording) => []
               case Some(ChoosingOutputPath) => [AlreadyWaiting]
               case Some(Stopping) => [AlreadyStopping]
    ensures Added(a, StartRecording(a, id)) == if a.session.Some? then [AlreadyInProgress] else []
  {
    AddedOne(a, NothingToStop);
    AddedOne(a, AlreadyWaiting);
    AddedOne(a, AlreadyStopping);
    AddedOne(a, AlreadyInProgress);
  }

  lemma CancelNotices(a: App, send: Send)
    ensures Added(a, CancelRecording(a, send).app)
            == if StateOf(a) == None then [NothingToCancel]
               else if StateOf(a) == Some(Stopping) then [AlreadyStopping]
               else if send == Delivered then [CancellingNow] else [CancelFailed]
  {
    AddedOne(a, CancelRecording(a, send).app.notices[|a.notices|]);
  }

  /** The notices of a dialog that returns and of a launch. */
  lemma ReturnNotices(a: App, id: nat, tag: nat, picked: Picked, send: Send)
    ensures Added(a, DialogReturned(a, tag, picked, send).app)
            == if picked == PickError then [PickFailed]
               else if picked == Dismissed || StateOf(a) != Some(ChoosingOutputPath) then []
               else if send == Delivered then [StoppingNow] else [StopFailed]
    ensures Added(a, LaunchSucceeded(a, id)) == [RecordingStarted] && Added(a, LaunchFailed(a, id)) == [StartFailed]
  {
    AddedOne(a, PickFailed);
    AddedOne(a, StoppingNow);
    AddedOne(a, StopFailed);
    AddedOne(a, RecordingStarted);
    AddedOne(a, StartFailed);
  }
}
