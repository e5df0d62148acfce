/** What every run of the ETW recording protocol keeps. */
module EtwSafety {
  import opened Prelude
  import opened EtwProtocol

  // ---- The subprocess on its own -------------------------------------------

  ghost predicate RecorderStarted(effects: seq<Effect>) {
    WprStart(true) in effects
  }

  /** A Save or Cancel that the recorder carried out. */
  ghost predicate EndedByCommand(effects: seq<Effect>) {
    WprCancel(true) in effects || exists path :: WprSave(path, true) in effects
  }

  predicate Terminal(e: Effect) {
    e.Sent? && !e.status.Started?
  }

  /** How many final statuses the subprocess has tried to send. */
  function Terminals(effects: seq<Effect>): (n: nat) {
    if effects == [] then 0
    else Terminals(effects[..|effects| - 1]) + if Terminal(effects[|effects| - 1]) then 1 else 0
  }

  /** How many recordings the subprocess has started. */
  function Starts(effects: seq<Effect>): (n: nat) {
    if effects == [] then 0
    else Starts(effects[..|effects| - 1]) + if effects[|effects| - 1] == WprStart(true) then 1 else 0
  }

  /** The effect ends a recording: a command that succeeded, or the guard. */
  predicate Releases(e: Effect) {
    e == GuardCancel || (e.WprCancel? && e.ok) || (e.WprSave? && e.ok)
  }

  /** How many times a recording that had been started was released. */
  ghost function ReleaseCount(effects: seq<Effect>): (n: nat) {
    if effects == [] then 0
    else
      var before, last := effects[..|effects| - 1], effects[|effects| - 1];
      ReleaseCount(before) + if Releases(last) && RecorderStarted(before) then 1 else 0
  }

  /** A recording is in progress: started once, not released, and no final status sent. */
  ghost predicate Held(effects: seq<Effect>) {
    && RecorderStarted(effects) && Starts(effects) == 1 && ReleaseCount(effects) == 0
    && !EndedByCommand(effects) && GuardCancel !in effects && Terminals(effects) == 0
  }

  /** No recording, or one that was started once and released once, by a command or by the guard. */
  ghost predicate Settled(effects: seq<Effect>) {
    && Starts(effects) == ReleaseCount(effects) == (if RecorderStarted(effects) then 1 else 0)
    && (RecorderStarted(effects) ==> (EndedByCommand(effects) <==> GuardCancel !in effects))
  }

  /** The recorder discipline at each point of the subprocess. */
  ghost predicate Discipline(p: Proc) {
    var fx := p.effects;
    match p.pc
    case Booting => fx == []
    case Armed => Held(fx)
    case Waiting => Held(fx)
    case Acting(_) => Held(fx)
    case Reporting(s) => Settled(fx) && RecorderStarted(fx) && EndedByCommand(fx) && Terminals(fx) == 0 && !s.Started?
    case Failing => Settled(fx) && Terminals(fx) == 0
    case Exited => Settled(fx) && Terminals(fx) <= 1
    case Killed => ReleaseCount(fx) <= Starts(fx) <= 1 && Terminals(fx) <= 1
  }

  /** What one more effect does to the counts. */
  lemma CountsAppend(fx: seq<Effect>, e: Effect)
    ensures Terminals(fx + [e]) == Terminals(fx) + if Terminal(e) then 1 else 0
    ensures Starts(fx + [e]) == Starts(fx) + if e == WprStart(true) then 1 else 0
    ensures ReleaseCount(fx + [e]) == ReleaseCount(fx) + if Releases(e) && RecorderStarted(fx) then 1 else 0
    ensures RecorderStarted(fx + [e]) <==> RecorderStarted(fx) || e == WprStart(true)
    ensures EndedByCommand(fx + [e]) <==> EndedByCommand(fx) || (Releases(e) && e != GuardCancel)
    ensures GuardCancel in fx + [e] <==> GuardCancel in fx || e == GuardCancel
  {
    assert (fx + [e])[..|fx|] == fx;
    assert forall path :: WprSave(path, true) in fx + [e] <==> WprSave(path, true) in fx || e == WprSave(path, true);
  }

  /** The guard settles a recording in progress. */
  lemma GuardSettles(p: Proc)
    requires Held(p.effects)
    ensures Discipline(GuardedFailure(p))
  {
    CountsAppend(p.effects, GuardCancel);
  }

  lemma ActKeepsDiscipline(p: Proc, c: Command, ok: bool)
    requires p.pc == Acting(c) && Discipline(p)
    ensures Discipline(Act(p, c, ok))
  {
    var effect := match c case Cancel => WprCancel(ok) case Save(path) => WprSave(path, ok);
    CountsAppend(p.effects, effect);
    if !ok {
      GuardSettles(p.(effects := p.effects + [effect]));
    }
  }

  lemma BootingKeepsDiscipline(p: Proc, i: SubInput)
    requires SubEnabled(p, i) && p.pc.Booting? && Discipline(p)
    ensures Discipline(SubStep(p, i))
  {
    var ok := i.StartSucceeds?;
    CountsAppend([], LeftoverCancel);
    CountsAppend([] + [LeftoverCancel], WprStart(ok));
    assert [] + [LeftoverCancel] + [WprStart(ok)] == [LeftoverCancel, WprStart(ok)];
  }

  lemma ArmedKeepsDiscipline(p: Proc, i: SubInput)
    requires SubEnabled(p, i) && p.pc.Armed? && Discipline(p)
    ensures Discipline(SubStep(p, i))
  {
    CountsAppend(p.effects, Sent(Started, i.send));
    if !i.send.Delivered? {
      GuardSettles(Emit(p, Started, i.send));
    }
  }

  /** The final status. */
  lemma ReportKeepsDiscipline(p: Proc, status: Status, send: Send)
    requires Settled(p.effects) && Terminals(p.effects) == 0
    ensures Discipline(Emit(p, status, send).(pc := Exited))
  {
    CountsAppend(p.effects, Sent(status, send));
  }

  lemma SubStepKeepsDiscipline(p: Proc, i: SubInput)
    requires SubEnabled(p, i) && Discipline(p)
    ensures Discipline(SubStep(p, i))
  {
    match p.pc
    case Booting =>
      BootingKeepsDiscipline(p, i);
    case Armed =>
      ArmedKeepsDiscipline(p, i);
    case Waiting =>
      GuardSettles(p);
    case Acting(c) =>
      ActKeepsDiscipline(p, c, i.ok);
    case Reporting(s) =>
      ReportKeepsDiscipline(p, s, i.send);
    case Failing =>
      ReportKeepsDiscipline(p, Failure, i.send);
  }

  // ---- The two directions of a socket --------------------------------------

  /** The app tried to send this command in this session. */
  ghost predicate Tried(p: Proc, c: Command) {
    exists i :: 0 <= i < |p.attempts| && p.attempts[i].command == c
  }

  /** The recorder saved to the path, which the app had sent. */
  ghost predicate SavedTheSent(p: Proc, path: Path) {
    WprSave(path, true) in p.effects && Tried(p, Save(path))
  }

  ghost predicate Wires(p: Proc) {
    && p.read <= |p.commands| && p.taken <= |p.emitted|
    && (forall c :: Message(c) in p.commands ==> Tried(p, c))
    && (p.pc.Acting? ==> Tried(p, p.pc.command))
    && (p.pc.Reporting? && p.pc.status.Stopped? ==> SavedTheSent(p, p.pc.status.path))
    && (forall path :: Message(Stopped(path)) in p.emitted ==> SavedTheSent(p, path))
  }

  /** Only the first line can say that the recording started. */
  ghost predicate StartedFirst(p: Proc) {
    && (p.pc.Booting? || p.pc.Armed? ==> p.emitted == [])
    && (p.pc.Reporting? ==> !p.pc.status.Started?)
    && (p.pc.Waiting? || p.pc.Acting? || p.pc.Reporting? ==> |p.emitted| > 0)
    && forall i :: 0 < i < |p.emitted| ==> p.emitted[i] != Message(Started)
  }

  lemma SubStepKeepsStartedFirst(p: Proc, i: SubInput)
    requires SubEnabled(p, i) && StartedFirst(p)
    ensures StartedFirst(SubStep(p, i))
  {
    match p.pc
    case Armed =>
      assert p.emitted + LinesOf(Started, i.send) == LinesOf(Started, i.send);
    case _ =>
  }

  lemma SubStepKeepsWires(p: Proc, i: SubInput)
    requires SubEnabled(p, i) && Wires(p)
    ensures Wires(SubStep(p, i))
  {
    var q := SubStep(p, i);
    assert forall c :: Tried(p, c) <==> Tried(q, c);
    assert forall path :: SavedTheSent(p, path) ==> SavedTheSent(q, path);
    if p.pc.Waiting? && i.Receive? && p.commands[p.read].Message? {
      assert Message(p.commands[p.read].message) in p.commands;
    }
    forall path | Message(Stopped(path)) in q.emitted
      ensures SavedTheSent(q, path)
    {
      if Message(Stopped(path)) !in p.emitted {
        assert p.pc == Reporting(Stopped(path));
      }
    }
  }

  ghost predicate ProcOk(p: Proc) {
    Discipline(p) && Wires(p) && StartedFirst(p)
  }

  /** Only the last command attempted in a session can have been sent successfully. */
  ghost predicate OneSuccess(attempts: seq<Attempt>) {
    forall i :: 0 <= i < |attempts| - 1 ==> !attempts[i].send.Delivered?
  }

  predicate SentOne(p: Proc) {
    p.attempts != [] && p.attempts[|p.attempts| - 1].send.Delivered?
  }

  // ---- The app among its subprocesses --------------------------------------

  /** Launches have not been read, readers have; an installed session is read, and in step with its socket and dialog. */
  ghost predicate AppOk(w: World) {
    var a := w.app;
    && (forall id :: id in a.launching ==> id < |w.procs| && w.procs[id].attempts == [] && w.procs[id].taken == 0)
    && (forall id :: id in a.watching ==> id < |w.procs| && w.procs[id].taken > 0)
    && (a.session.Some? ==>
          var id := a.session.value.id;
          && id in a.watching && id !in a.launching
          && (a.session.value.state.ChoosingOutputPath? ==> id in a.dialogs)
          && (a.session.value.state.Stopping? <==> SentOne(w.procs[id])))
  }

  ghost predicate NoticesOk(w: World) {
    && EndedUnexpectedly !in w.app.notices
    && forall path :: SavedTo(path) in w.app.notices ==>
         exists id :: 0 <= id < |w.procs| && SavedTheSent(w.procs[id], path)
  }

  ghost predicate Inv(w: World) {
    && (forall id :: 0 <= id < |w.procs| ==> ProcOk(w.procs[id]) && OneSuccess(w.procs[id].attempts))
    && AppOk(w)
    && NoticesOk(w)
  }

  /** A save that was made stays made. */
  lemma NoticesKept(w: World, v: World, n: Option<Notice>)
    requires NoticesOk(w)
    requires v.app.notices == w.app.notices || (n.Some? && v.app.notices == w.app.notices + [n.value])
    requires |w.procs| <= |v.procs|
    requires forall id, path :: 0 <= id < |w.procs| && SavedTheSent(w.procs[id], path) ==> SavedTheSent(v.procs[id], path)
    requires n.Some? ==> n.value != EndedUnexpectedly
    requires n.Some? && n.value.SavedTo? ==>
               exists id :: 0 <= id < |v.procs| && SavedTheSent(v.procs[id], n.value.path)
    ensures NoticesOk(v)
  {
    forall path | SavedTo(path) in v.app.notices
      ensures exists id :: 0 <= id < |v.procs| && SavedTheSent(v.procs[id], path)
    {
      if SavedTo(path) in w.app.notices {
        var id :| 0 <= id < |w.procs| && SavedTheSent(w.procs[id], path);
        assert SavedTheSent(v.procs[id], path);
      }
    }
  }

  lemma TransmitKeepsProc(p: Proc, attempt: Attempt)
    requires ProcOk(p) && OneSuccess(p.attempts) && !SentOne(p)
    ensures var q := p.(attempts := p.attempts + [attempt],
                        commands := p.commands + LinesOf(attempt.command, attempt.send));
            && ProcOk(q) && OneSuccess(q.attempts) && (SentOne(q) <==> attempt.send.Delivered?)
            && forall path :: SavedTheSent(p, path) ==> SavedTheSent(q, path)
  {
    var q := p.(attempts := p.attempts + [attempt],
                commands := p.commands + LinesOf(attempt.command, attempt.send));
    assert q.attempts[|p.attempts|] == attempt;
    forall c | Tried(p, c)
      ensures Tried(q, c)
    {
      var i :| 0 <= i < |p.attempts| && p.attempts[i].command == c;
      assert q.attempts[i].command == c;
    }
    forall i | 0 <= i < |p.attempts|
      ensures !q.attempts[i].send.Delivered?
    {
      assert q.attempts[i] == p.attempts[i];
    }
  }

  /** A handler that may send: the session is not stopping when it sends, and stopping after success. */
  lemma TransmitKeeps(w: World, h: Handled, n: Option<Notice>)
    requires Inv(w)
    requires h.app.notices == if n.Some? then w.app.notices + [n.value] else w.app.notices
    requires n.Some? ==> !n.value.SavedTo? && n.value != EndedUnexpectedly
    requires h.app.launching == w.app.launching && h.app.watching == w.app.watching
    requires h.app.session.Some? <==> w.app.session.Some?
    requires h.attempt.Some? ==> w.app.session.Some? && !w.app.session.value.state.Stopping?
    requires w.app.session.Some? ==>
               var s, t := w.app.session.value, h.app.session.value;
               && t.id == s.id
               && (t.state.ChoosingOutputPath? ==> t.id in h.app.dialogs)
               && (if h.attempt.Some? then t.state.Stopping? <==> h.attempt.value.send.Delivered?
                   else t.state.Stopping? <==> s.state.Stopping?)
    ensures Inv(Transmit(w, h))
  {
    var v := Transmit(w, h);
    if h.attempt.Some? {
      TransmitKeepsProc(w.procs[w.app.session.value.id], h.attempt.value);
    }
    NoticesKept(w, v, n);
  }

  lemma DialogKeeps(w: World, tag: nat, picked: Picked, send: Send)
    requires Inv(w) && tag in w.app.dialogs
    ensures Inv(Transmit(w, DialogReturned(w.app, tag, picked, send)))
  {
    var h := DialogReturned(w.app, tag, picked, send);
    var n := if h.app.notices == w.app.notices then None else Some(h.app.notices[|h.app.notices| - 1]);
    TransmitKeeps(w, h, n);
  }

  lemma CancelKeeps(w: World, send: Send)
    requires Inv(w)
    ensures Inv(Transmit(w, CancelRecording(w.app, send)))
  {
    var h := CancelRecording(w.app, send);
    TransmitKeeps(w, h, Some(h.app.notices[|h.app.notices| - 1]));
  }

  lemma PromptKeeps(w: World)
    requires Inv(w)
    ensures Inv(w.(app := PromptForOutputPath(w.app)))
  {
    var a := PromptForOutputPath(w.app);
    var n := if a.notices == w.app.notices then None else Some(a.notices[|a.notices| - 1]);
    TransmitKeeps(w, Handled(a, None), n);
  }

  lemma StartKeeps(w: World)
    requires Inv(w)
    ensures Inv(Step(w, StartPressed))
  {
    var v := Step(w, StartPressed);
    NoticesKept(w, v, if w.app.session.Some? then Some(AlreadyInProgress) else None);
    assert ProcOk(NewProc());
  }

  lemma LaunchKeeps(w: World, id: nat, gotLine: bool)
    requires Inv(w) && id in w.app.launching && (gotLine ==> Unread(w, id))
    ensures Inv(Step(w, if gotLine then LaunchReads(id) else LaunchFails(id)))
  {
    var e := if gotLine then LaunchReads(id) else LaunchFails(id);
    var v := Step(w, e);
    NoticesKept(w, v, Some(v.app.notices[|v.app.notices| - 1]));
    assert forall jd :: 0 <= jd < |v.procs| ==> ProcOk(v.procs[jd]);
  }

  /** The reader never sees a second Started, and a path it reports was saved. */
  lemma WatcherKeeps(w: World, id: nat, gotLine: bool)
    requires Inv(w) && id in w.app.watching && (gotLine ==> Unread(w, id))
    ensures Inv(Step(w, if gotLine then WatcherReads(id) else WatcherFails(id)))
  {
    var e := if gotLine then WatcherReads(id) else WatcherFails(id);
    var v := Step(w, e);
    if gotLine {
      var p := w.procs[id];
      assert p.emitted[p.taken] in p.emitted && p.taken > 0;
      assert forall path :: SavedTheSent(p, path) ==> SavedTheSent(v.procs[id], path);
    }
    NoticesKept(w, v, Some(v.app.notices[|v.app.notices| - 1]));
    assert forall jd :: 0 <= jd < |v.procs| ==> ProcOk(v.procs[jd]);
  }

  /** A subprocess that moves on its own disturbs nothing else. */
  lemma ReplaceProcKeeps(w: World, id: nat, q: Proc)
    requires Inv(w) && id < |w.procs| && ProcOk(q)
    requires q.attempts == w.procs[id].attempts && q.taken == w.procs[id].taken
    requires forall e :: e in w.procs[id].effects ==> e in q.effects
    ensures Inv(w.(procs := w.procs[id := q]))
  {
    var v := w.(procs := w.procs[id := q]);
    assert forall path :: SavedTheSent(w.procs[id], path) ==> SavedTheSent(q, path) by {
      assert forall c :: Tried(w.procs[id], c) <==> Tried(q, c);
    }
    NoticesKept(w, v, None);
  }

  lemma SubStepGrows(p: Proc, i: SubInput)
    requires SubEnabled(p, i)
    ensures SubStep(p, i).attempts == p.attempts && SubStep(p, i).taken == p.taken
    ensures forall e :: e in p.effects ==> e in SubStep(p, i).effects
  {
  }

  lemma SubprocessKeeps(w: World, id: nat, i: SubInput)
    requires Inv(w) && id < |w.procs| && SubEnabled(w.procs[id], i)
    ensures Inv(Step(w, Subprocess(id, i)))
  {
    var p := w.procs[id];
    SubStepKeepsDiscipline(p, i);
    SubStepKeepsWires(p, i);
    SubStepKeepsStartedFirst(p, i);
    SubStepGrows(p, i);
    var q := SubStep(p, i);
    ReplaceProcKeeps(w, id, q);
  }

  lemma KillKeeps(w: World, id: nat)
    requires Inv(w) && id < |w.procs|
    ensures Inv(Step(w, SubprocessKilled(id)))
  {
    var p := w.procs[id];
    var q := p.(pc := Killed);
    assert forall c :: Tried(p, c) <==> Tried(q, c);
    assert forall path :: SavedTheSent(p, path) <==> SavedTheSent(q, path);
    ReplaceProcKeeps(w, id, q);
  }

  lemma StepKeeps(w: World, e: Event)
    requires Inv(w) && Enabled(w, e)
    ensures Inv(Step(w, e))
  {
    match e
    case StartPressed => StartKeeps(w);
    case SavePressed => PromptKeeps(w);
    case CancelPressed(send) => CancelKeeps(w, send);
    case DialogReturns(tag, picked, send) => DialogKeeps(w, tag, picked, send);
    case LaunchReads(id) => LaunchKeeps(w, id, true);
    case LaunchFails(id) => LaunchKeeps(w, id, false);
    case WatcherReads(id) => WatcherKeeps(w, id, true);
    case WatcherFails(id) => WatcherKeeps(w, id, false);
    case Subprocess(id, i) => SubprocessKeeps(w, id, i);
    case SubprocessKilled(id) => KillKeeps(w, id);
  }

  lemma {:induction false} RunKeeps(w: World, run: seq<Event>)
    requires Inv(w) && Possible(w, run)
    ensures Inv(After(w, run))
    decreases |run|
  {
    if run != [] {
      StepKeeps(w, run[0]);
      RunKeeps(Step(w, run[0]), run[1..]);
    }
  }

  // ---- Results -------------------------------------------------------------

  /** After a successful send, the session never attempts another command. */
  lemma NoSecondCommand(run: seq<Event>, id: nat, i: nat, j: nat)
    requires Possible(Init(), run)
    requires id < |After(Init(), run).procs| && i < j < |After(Init(), run).procs[id].attempts|
    ensures !After(Init(), run).procs[id].attempts[i].send.Delivered?
  {
    RunKeeps(Init(), run);
  }

  /** While a save location is awaited, the dialog opened for this very session is still open. */
  lemma ChoosingHasDialog(run: seq<Event>)
    requires Possible(Init(), run)
    ensures var a := After(Init(), run).app;
            a.session.Some? && a.session.value.state.ChoosingOutputPath? ==> a.session.value.id in a.dialogs
  {
    RunKeeps(Init(), run);
  }

  /** "ETW trace saved to P" is only ever shown when a subprocess saved to the P it was sent. */
  lemma SavedNoticeIsTrue(run: seq<Event>, path: Path)
    requires Possible(Init(), run)
    requires SavedTo(path) in After(Init(), run).app.notices
    ensures exists id :: 0 <= id < |After(Init(), run).procs| && SavedTheSent(After(Init(), run).procs[id], path)
  {
    RunKeeps(Init(), run);
  }

  /** The status branch for a second Started is never taken. */
  lemma NeverEndsUnexpectedly(run: seq<Event>)
    requires Possible(Init(), run)
    ensures EndedUnexpectedly !in After(Init(), run).app.notices
  {
    RunKeeps(Init(), run);
  }

  /**
   A subprocess starts at most one recording, never releases it twice, and tries to send at
   most one final status; when it exits, a recording that it started has been released
   exactly once, by the command or by the guard.
   */
  lemma RecorderReleased(run: seq<Event>, id: nat)
    requires Possible(Init(), run)
    requires id < |After(Init(), run).procs|
    ensures var p := After(Init(), run).procs[id];
            && Terminals(p.effects) <= 1 && ReleaseCount(p.effects) <= Starts(p.effects) <= 1
            && (p.pc.Exited? && RecorderStarted(p.effects) ==>
                  && ReleaseCount(p.effects) == Starts(p.effects) == 1
                  && (EndedByCommand(p.effects) <==> GuardCancel !in p.effects))
  {
    RunKeeps(Init(), run);
  }
}
