/**
 ETW trace recording (crates/etw_tracing/etw_tracing.rs): the app, its save
 dialogs and one elevated subprocess per launch, connected by a pair of
 line-oriented sockets. The app's handlers and the subprocess are given as
 functions on values; runs interleave them in any order.
 */
module EtwProtocol {
  import opened Prelude

  type Path = string

  datatype Command = Save(path: Path) | Cancel

  datatype Status = Started | Stopped(path: Path) | Cancelled | Failure

  /** One line on a socket: a message, or text that does not parse as one. */
  datatype Line<+T> = Message(message: T) | Garbage

  /** A send succeeds, or fails after leaving nothing, the message, or part of it on the wire. */
  datatype Send = Delivered | FailedClean | FailedDelivered | FailedGarbled

  function LinesOf<T>(m: T, send: Send): (lines: seq<Line<T>>) {
    match send
    case Delivered => [Message(m)]
    case FailedClean => []
    case FailedDelivered => [Message(m)]
    case FailedGarbled => [Garbage]
  }

  // ---- The app -------------------------------------------------------------

  datatype SessionState = Recording | ChoosingOutputPath | Stopping

  /** The installed session; `id` names the launch it came from. */
  datatype Session = Session(id: nat, state: SessionState)

  datatype Notice =
    | NothingToStop | AlreadyWaiting | AlreadyStopping | StoppingNow | StopFailed
    | NothingToCancel | CancellingNow | CancelFailed
    | AlreadyInProgress | StartFailed | RecordingStarted
    | SavedTo(path: Path) | RecordingCancelled | RecordingFailed | EndedUnexpectedly | CompletionFailed
    | PickFailed

  /**
   The global session, the launches and status readers in the background, the open
   save dialogs (each tagged with the session that opened it) and the notices shown.
   */
  datatype App = App(
    session: Option<Session>,
    launching: set<nat>,
    watching: set<nat>,
    dialogs: multiset<nat>,
    notices: seq<Notice>)
  {
    function Notify(n: Notice): App {
      this.(notices := notices + [n])
    }

    function InState(s: SessionState): App
      requires session.Some?
    {
      this.(session := Some(session.value.(state := s)))
    }
  }

  /** A command the app tried to send. */
  datatype Attempt = Attempt(command: Command, send: Send)

  /** The app after a handler, and the send it attempted on the session's socket. */
  datatype Handled = Handled(app: App, attempt: Option<Attempt>)

  function PromptForOutputPath(a: App): (b: App) {
    if a.session.None? then a.Notify(NothingToStop)
    else
      match a.session.value.state
      case Recording =>
        a.InState(ChoosingOutputPath).(dialogs := a.dialogs + multiset{a.session.value.id})
      case ChoosingOutputPath => a.Notify(AlreadyWaiting)
      case Stopping => a.Notify(AlreadyStopping)
  }

  function SaveRecording(a: App, path: Path, send: Send): (h: Handled) {
    if a.session.None? || !a.session.value.state.ChoosingOutputPath? then Handled(a, None)
    else
      var attempt := Some(Attempt(Save(path), send));
      if send.Delivered? then Handled(a.InState(Stopping).Notify(StoppingNow), attempt)
      else Handled(a.InState(Recording).Notify(StopFailed), attempt)
  }

  function ResumeRecording(a: App): (b: App) {
    if a.session.Some? && a.session.value.state.ChoosingOutputPath? then a.InState(Recording) else a
  }

  /** What the user did with a save dialog. */
  datatype Picked = Chose(path: Path) | Dismissed | PickError

  function DialogReturned(a: App, tag: nat, picked: Picked, send: Send): (h: Handled) {
    var a := a.(dialogs := a.dialogs - multiset{tag});
    match picked
    case Chose(path) => SaveRecording(a, path, send)
    case Dismissed => Handled(ResumeRecording(a), None)
    case PickError => Handled(ResumeRecording(a).Notify(PickFailed), None)
  }

  function CancelRecording(a: App, send: Send): (h: Handled) {
    if a.session.None? then Handled(a.Notify(NothingToCancel), None)
    else if a.session.value.state.Stopping? then Handled(a.Notify(AlreadyStopping), None)
    else
      var attempt := Some(Attempt(Cancel, send));
      if send.Delivered? then Handled(a.InState(Stopping).Notify(CancellingNow), attempt)
      else Handled(a.InState(Recording).Notify(CancelFailed), attempt)
  }

  /** Only an installed session stops a new launch; a launch in progress does not. */
  function StartRecording(a: App, id: nat): (b: App) {
    if a.session.Some? then a.Notify(AlreadyInProgress) else a.(launching := a.launching + {id})
  }

  function LaunchSucceeded(a: App, id: nat): (b: App) {
    a.(session := Some(Session(id, Recording)), launching := a.launching - {id}, watching := a.watching + {id})
    .Notify(RecordingStarted)
  }

  function LaunchFailed(a: App, id: nat): (b: App) {
    a.(launching := a.launching - {id}).Notify(StartFailed)
  }

  function StatusNotice(status: Option<Status>): (n: Notice) {
    match status
    case Some(Stopped(path)) => SavedTo(path)
    case Some(Cancelled) => RecordingCancelled
    case Some(Failure) => RecordingFailed
    case Some(Started) => EndedUnexpectedly
    case None => CompletionFailed
  }

  /** The status reader ends: whatever session is installed is dropped. */
  function SessionEnded(a: App, id: nat, status: Option<Status>): (b: App) {
    a.(session := None, watching := a.watching - {id}).Notify(StatusNotice(status))
  }

  // ---- The subprocess ------------------------------------------------------

  datatype Effect =
    | LeftoverCancel
    | WprStart(ok: bool)
    | WprCancel(ok: bool)
    | WprSave(path: Path, ok: bool)
    | GuardCancel
    | Sent(status: Status, send: Send)

  /** Where the subprocess is; the cancel guard is armed from `Armed` until a Save or Cancel succeeds. */
  datatype Pc = Booting | Armed | Waiting | Acting(command: Command) | Reporting(status: Status) | Failing | Exited | Killed

  /** A subprocess and both directions of its socket, with what each side has consumed. */
  datatype Proc = Proc(
    pc: Pc,
    effects: seq<Effect>,
    attempts: seq<Attempt>,
    commands: seq<Line<Command>>,
    read: nat,
    emitted: seq<Line<Status>>,
    taken: nat)

  function NewProc(): (p: Proc) {
    Proc(Booting, [], [], [], 0, [], 0)
  }

  /** The outcome of whatever the subprocess does next. */
  datatype SubInput =
    | ConnectFails | SetupFails | StartFails | StartSucceeds
    | SendResult(send: Send)
    | Receive | ReceiveFails
    | WprResult(ok: bool)

  predicate SubEnabled(p: Proc, i: SubInput) {
    match p.pc
    case Booting => i.ConnectFails? || i.SetupFails? || i.StartFails? || i.StartSucceeds?
    case Armed => i.SendResult?
    case Waiting => (i.Receive? && p.read < |p.commands|) || i.ReceiveFails?
    case Acting(_) => i.WprResult?
    case Reporting(_) => i.SendResult?
    case Failing => i.SendResult?
    case Exited => false
    case Killed => false
  }

  function Emit(p: Proc, status: Status, send: Send): (q: Proc) {
    p.(effects := p.effects + [Sent(status, send)], emitted := p.emitted + LinesOf(status, send))
  }

  /** Leaving with an error while the guard is armed cancels the recording first. */
  function GuardedFailure(p: Proc): (q: Proc) {
    p.(pc := Failing, effects := p.effects + [GuardCancel])
  }

  function Act(p: Proc, c: Command, ok: bool): (q: Proc) {
    var effect := match c case Cancel => WprCancel(ok) case Save(path) => WprSave(path, ok);
    var q := p.(effects := p.effects + [effect]);
    if !ok then GuardedFailure(q)
    else q.(pc := Reporting(match c case Cancel => Cancelled case Save(path) => Stopped(path)))
  }

  function SubStep(p: Proc, i: SubInput): (q: Proc)
    requires SubEnabled(p, i)
  {
    match p.pc
    case Booting =>
      (match i
       case ConnectFails => p.(pc := Exited)
       case SetupFails => p.(pc := Failing)
       case StartFails => p.(pc := Failing, effects := p.effects + [LeftoverCancel, WprStart(false)])
       case _ => p.(pc := Armed, effects := p.effects + [LeftoverCancel, WprStart(true)]))
    case Armed =>
      var q := Emit(p, Started, i.send);
      if i.send.Delivered? then q.(pc := Waiting) else GuardedFailure(q)
    case Waiting =>
      if i.ReceiveFails? then GuardedFailure(p)
      else
        var q := p.(read := p.read + 1);
        (match p.commands[p.read]
         case Message(c) => q.(pc := Acting(c))
         case Garbage => GuardedFailure(q))
    case Acting(c) => Act(p, c, i.ok)
    case Reporting(status) => Emit(p, status, i.send).(pc := Exited)
    case Failing => Emit(p, Failure, i.send).(pc := Exited)
    case _ => p
  }

  // ---- Runs ----------------------------------------------------------------

  datatype World = World(app: App, procs: seq<Proc>)

  function Init(): (w: World) {
    World(App(None, {}, {}, multiset{}, []), [])
  }

  datatype Event =
    | StartPressed
    | SavePressed
    | CancelPressed(send: Send)
    | DialogReturns(tag: nat, picked: Picked, send: Send)
    | LaunchReads(id: nat)
    | LaunchFails(id: nat)
    | WatcherReads(id: nat)
    | WatcherFails(id: nat)
    | Subprocess(id: nat, input: SubInput)
    | SubprocessKilled(id: nat)

  predicate Unread(w: World, id: nat) {
    id < |w.procs| && w.procs[id].taken < |w.procs[id].emitted|
  }

  predicate Enabled(w: World, e: Event) {
    match e
    case DialogReturns(tag, _, _) => tag in w.app.dialogs
    case LaunchReads(id) => id in w.app.launching && Unread(w, id)
    case LaunchFails(id) => id in w.app.launching
    case WatcherReads(id) => id in w.app.watching && Unread(w, id)
    case WatcherFails(id) => id in w.app.watching
    case Subprocess(id, i) => id < |w.procs| && SubEnabled(w.procs[id], i)
    case SubprocessKilled(id) => id < |w.procs|
    case _ => true
  }

  /** Records a send attempt on the socket of the session that was installed. */
  function Transmit(w: World, h: Handled): (v: World) {
    if h.attempt.None? || w.app.session.None? || w.app.session.value.id >= |w.procs| then w.(app := h.app)
    else
      var id := w.app.session.value.id;
      var p := w.procs[id];
      var q := p.(attempts := p.attempts + [h.attempt.value],
                  commands := p.commands + LinesOf(h.attempt.value.command, h.attempt.value.send));
      World(h.app, w.procs[id := q])
  }

  /** The next line from the subprocess; a line that does not parse reads as a failure. */
  function NextStatus(w: World, id: nat): (s: Option<Status>)
    requires Unread(w, id)
  {
    match w.procs[id].emitted[w.procs[id].taken]
    case Message(s) => Some(s)
    case Garbage => None
  }

  function Take(w: World, id: nat): (v: World)
    requires Unread(w, id)
  {
    w.(procs := w.procs[id := w.procs[id].(taken := w.procs[id].taken + 1)])
  }

  function Step(w: World, e: Event): (v: World)
    requires Enabled(w, e)
  {
    match e
    case StartPressed =>
      World(StartRecording(w.app, |w.procs|), if w.app.session.Some? then w.procs else w.procs + [NewProc()])
    case SavePressed => w.(app := PromptForOutputPath(w.app))
    case CancelPressed(send) => Transmit(w, CancelRecording(w.app, send))
    case DialogReturns(tag, picked, send) => Transmit(w, DialogReturned(w.app, tag, picked, send))
    case LaunchReads(id) =>
      Take(w, id).(app := if NextStatus(w, id) == Some(Started) then LaunchSucceeded(w.app, id)
                          else LaunchFailed(w.app, id))
    case LaunchFails(id) => w.(app := LaunchFailed(w.app, id))
    case WatcherReads(id) => Take(w, id).(app := SessionEnded(w.app, id, NextStatus(w, id)))
    case WatcherFails(id) => w.(app := SessionEnded(w.app, id, None))
    case Subprocess(id, i) => w.(procs := w.procs[id := SubStep(w.procs[id], i)])
    case SubprocessKilled(id) => w.(procs := w.procs[id := w.procs[id].(pc := Killed)])
  }

  /** The events can happen one after the other from `w`. */
  predicate Possible(w: World, run: seq<Event>)
    decreases |run|
  {
    run == [] || (Enabled(w, run[0]) && Possible(Step(w, run[0]), run[1..]))
  }

  function After(w: World, run: seq<Event>): (v: World)
    requires Possible(w, run)
    decreases |run|
  {
    if run == [] then w else After(Step(w, run[0]), run[1..])
  }
}
