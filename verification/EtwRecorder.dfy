/**
 The imperative form of the ETW recorder: the app's handlers over its global
 session (crates/etw_tracing/etw_tracing.rs:114-238), and the body of the
 subprocess with its cancel guard (crates/etw_tracing/etw_tracing.rs:450-533).
 */
module EtwRecorder {
  import opened Prelude
  import opened EtwProtocol
  import opened EtwSafety

  class EtwApp {
    var session: Option<Session>
    var launching: set<nat>
    var watching: set<nat>
    var dialogs: multiset<nat>
    var notices: seq<Notice>

    ghost function State(): (a: App)
      reads this
    {
      App(session, launching, watching, dialogs, notices)
    }

    constructor ()
      ensures State() == Init().app
    {
      session, launching, watching, dialogs, notices := None, {}, {}, multiset{}, [];
    }

    method Notify(n: Notice)
      modifies this`notices
      ensures State() == old(State()).Notify(n)
    {
      notices := notices + [n];
    }

    method OnSaveTrace()
      modifies this
      ensures State() == PromptForOutputPath(old(State()))
    {
      if session.None? {
        Notify(NothingToStop);
        return;
      }
      match session.value.state {
        case Recording =>
          session := Some(session.value.(state := ChoosingOutputPath));
        case ChoosingOutputPath =>
          Notify(AlreadyWaiting);
          return;
        case Stopping =>
          Notify(AlreadyStopping);
          return;
      }
      dialogs := dialogs + multiset{session.value.id};
    }

    method Save(path: Path, send: Send) returns (attempt: Option<Attempt>)
      modifies this
      ensures Handled(State(), attempt) == SaveRecording(old(State()), path, send)
    {
      if session.None? || session.value.state != ChoosingOutputPath {
        return None;
      }
      attempt := Some(Attempt(Command.Save(path), send));
      if send.Delivered? {
        session := Some(session.value.(state := Stopping));
        Notify(StoppingNow);
      } else {
        session := Some(session.value.(state := Recording));
        Notify(StopFailed);
      }
    }

    method Resume()
      modifies this
      ensures State() == ResumeRecording(old(State()))
    {
      if session.Some? && session.value.state == ChoosingOutputPath {
        session := Some(session.value.(state := Recording));
      }
    }

    method OnDialogReturned(tag: nat, picked: Picked, send: Send) returns (attempt: Option<Attempt>)
      requires tag in dialogs
      modifies this
      ensures Handled(State(), attempt) == DialogReturned(old(State()), tag, picked, send)
    {
      dialogs := dialogs - multiset{tag};
      attempt := None;
      match picked {
        case Chose(path) =>
          attempt := Save(path, send);
        case Dismissed =>
          Resume();
        case PickError =>
          Resume();
          Notify(PickFailed);
      }
    }

    method OnCancelTrace(send: Send) returns (attempt: Option<Attempt>)
      modifies this
      ensures Handled(State(), attempt) == CancelRecording(old(State()), send)
    {
      attempt := None;
      if session.None? {
        Notify(NothingToCancel);
        return;
      }
      if session.value.state == Stopping {
        Notify(AlreadyStopping);
        return;
      }
      attempt := Some(Attempt(Cancel, send));
      if send.Delivered? {
        session := Some(session.value.(state := Stopping));
        Notify(CancellingNow);
      } else {
        session := Some(session.value.(state := Recording));
        Notify(CancelFailed);
      }
    }

    method OnRecordTrace(id: nat)
      modifies this
      ensures State() == StartRecording(old(State()), id)
    {
      if session.Some? {
        Notify(AlreadyInProgress);
        return;
      }
      launching := launching + {id};
    }

    /** The launch task resumes with the first status line, or with an error. */
    method OnLaunched(id: nat, status: Option<Status>)
      requires id in launching
      modifies this
      ensures State() == if status == Some(Started) then LaunchSucceeded(old(State()), id)
                         else LaunchFailed(old(State()), id)
    {
      launching := launching - {id};
      if status == Some(Started) {
        session := Some(Session(id, Recording));
        watching := watching + {id};
        Notify(RecordingStarted);
      } else {
        Notify(StartFailed);
      }
    }

    method OnStatus(id: nat, status: Option<Status>)
      requires id in watching
      modifies this
      ensures State() == SessionEnded(old(State()), id, status)
    {
      session := None;
      watching := watching - {id};
      match status {
        case Some(Stopped(path)) => Notify(SavedTo(path));
        case Some(Cancelled) => Notify(RecordingCancelled);
        case Some(Failure) => Notify(RecordingFailed);
        case Some(Started) => Notify(EndedUnexpectedly);
        case None => Notify(CompletionFailed);
      }
    }
  }

  // ---- The subprocess ------------------------------------------------------

  ghost predicate SubPossible(p: Proc, inputs: seq<SubInput>)
    decreases |inputs|
  {
    inputs == [] || (SubEnabled(p, inputs[0]) && SubPossible(SubStep(p, inputs[0]), inputs[1..]))
  }

  ghost function SubAfter(p: Proc, inputs: seq<SubInput>): (q: Proc)
    requires SubPossible(p, inputs)
    decreases |inputs|
  {
    if inputs == [] then p else SubAfter(SubStep(p, inputs[0]), inputs[1..])
  }

  lemma {:induction false} SubExtend(p: Proc, inputs: seq<SubInput>, i: SubInput)
    requires SubPossible(p, inputs) && SubEnabled(SubAfter(p, inputs), i)
    ensures SubPossible(p, inputs + [i]) && SubAfter(p, inputs + [i]) == SubStep(SubAfter(p, inputs), i)
    decreases |inputs|
  {
    if inputs == [] {
      assert (inputs + [i])[1..] == [];
    } else {
      SubExtend(SubStep(p, inputs[0]), inputs[1..], i);
      assert (inputs + [i])[1..] == inputs[1..] + [i];
    }
  }

  lemma {:induction false} SubRunKeepsDiscipline(p: Proc, inputs: seq<SubInput>)
    requires SubPossible(p, inputs) && Discipline(p)
    ensures Discipline(SubAfter(p, inputs))
    decreases |inputs|
  {
    if inputs != [] {
      SubStepKeepsDiscipline(p, inputs[0]);
      SubRunKeepsDiscipline(SubStep(p, inputs[0]), inputs[1..]);
    }
  }

  /** How each fallible operation of one subprocess turns out. */
  datatype Outcomes = Outcomes(
    connects: bool, setup: bool, starts: bool, startedSend: Send,
    received: Option<Line<Command>>, carriedOut: bool, finalSend: Send)

  function Socket(o: Outcomes): (p: Proc) {
    NewProc().(commands := if o.received.Some? then [o.received.value] else [])
  }

  /** What there is to report, by what was received and how it turned out. */
  function Answer(o: Outcomes): (s: Status) {
    if !(o.setup && o.starts && o.startedSend == Delivered && o.carriedOut) then Failure
    else
      match o.received
      case Some(Message(Save(path))) => Stopped(path)
      case Some(Message(Cancel)) => Cancelled
      case _ => Failure
  }

  /** What is done about the command, once the app has been told that the recording runs. */
  function Deeds(o: Outcomes): (fx: seq<Effect>) {
    match o.received
    case Some(Message(Save(path))) => if o.carriedOut then [WprSave(path, true)] else [WprSave(path, false), GuardCancel]
    case Some(Message(Cancel)) => if o.carriedOut then [WprCancel(true)] else [WprCancel(false), GuardCancel]
    case _ => [GuardCancel]
  }

  /** Everything done before the final status. */
  function AllDeeds(o: Outcomes): (fx: seq<Effect>) {
    if !o.setup then []
    else if !o.starts then [LeftoverCancel, WprStart(false)]
    else
      [LeftoverCancel, WprStart(true), Sent(Started, o.startedSend)]
      + if o.startedSend == Delivered then Deeds(o) else [GuardCancel]
  }

  /** The lines before the final status. */
  function StartedLines(o: Outcomes): (lines: seq<Line<Status>>) {
    if o.setup && o.starts then LinesOf(Started, o.startedSend) else []
  }

  /** The effects and lines when the final status has been sent by the inner part, or is still to be sent. */
  ghost predicate Transcript(o: Outcomes, sent: bool, effects: seq<Effect>, emitted: seq<Line<Status>>) {
    && effects == AllDeeds(o) + (if sent then [Sent(Answer(o), o.finalSend)] else [])
    && emitted == StartedLines(o) + (if sent then LinesOf(Answer(o), o.finalSend) else [])
  }

  /** From here on the guard is armed: an early return cancels the recording. */
  method RecordArmed(o: Outcomes, ghost start: seq<SubInput>)
      returns (ok: bool, effects: seq<Effect>, emitted: seq<Line<Status>>, ghost inputs: seq<SubInput>)
    requires SubPossible(Socket(o), start)
    requires SubAfter(Socket(o), start) == Socket(o).(pc := Armed, effects := [LeftoverCancel, WprStart(true)])
    requires o.setup && o.starts
    ensures (ok <==> Answer(o) != Failure) && Transcript(o, ok, effects, emitted)
    ensures SubPossible(Socket(o), inputs)
    ensures var p := SubAfter(Socket(o), inputs);
            p.pc == (if ok then Exited else Failing) && p.effects == effects && p.emitted == emitted
    ensures ok ==> EndedByCommand(effects)
  {
    ghost var p := Socket(o);
    ok, effects := false, [LeftoverCancel, WprStart(true)];
    SubExtend(p, start, SendResult(o.startedSend));
    inputs := start + [SendResult(o.startedSend)];
    effects, emitted := effects + [Sent(Started, o.startedSend)], LinesOf(Started, o.startedSend);
    if !o.startedSend.Delivered? {
      effects := effects + [GuardCancel];
      return;
    }
    ghost var receive := if o.received.Some? then Receive else ReceiveFails;
    SubExtend(p, inputs, receive);
    inputs := inputs + [receive];
    if o.received.None? || o.received.value.Garbage? {
      effects := effects + [GuardCancel];
      return;
    }
    ok, effects, emitted, inputs := CarryOut(o, o.received.value.message, effects, emitted, inputs);
  }

  /** The command is carried out; only then is the guard disarmed, and the final send is only logged when it fails. */
  method CarryOut(o: Outcomes, command: Command, begun: seq<Effect>, lines: seq<Line<Status>>, ghost start: seq<SubInput>)
      returns (ok: bool, effects: seq<Effect>, emitted: seq<Line<Status>>, ghost inputs: seq<SubInput>)
    requires SubPossible(Socket(o), start)
    requires var p := SubAfter(Socket(o), start); p.pc == Acting(command) && p.effects == begun && p.emitted == lines
    requires o.setup && o.starts && o.startedSend == Delivered && o.received == Some(Message(command))
    requires begun == [LeftoverCancel, WprStart(true), Sent(Started, Delivered)] && lines == LinesOf(Started, Delivered)
    ensures (ok <==> Answer(o) != Failure) && Transcript(o, ok, effects, emitted)
    ensures SubPossible(Socket(o), inputs)
    ensures var p := SubAfter(Socket(o), inputs);
            p.pc == (if ok then Exited else Failing) && p.effects == effects && p.emitted == emitted
    ensures ok ==> EndedByCommand(effects)
  {
    ghost var p := Socket(o);
    ok, emitted := false, lines;
    SubExtend(p, start, WprResult(o.carriedOut));
    inputs := start + [WprResult(o.carriedOut)];
    effects := begun + [match command case Cancel => WprCancel(o.carriedOut) case Save(path) => WprSave(path, o.carriedOut)];
    if !o.carriedOut {
      effects := effects + [GuardCancel];
      return;
    }
    var status := match command case Cancel => Cancelled case Save(path) => Stopped(path);
    SubExtend(p, inputs, SendResult(o.finalSend));
    inputs := inputs + [SendResult(o.finalSend)];
    effects, emitted := effects + [Sent(status, o.finalSend)], emitted + LinesOf(status, o.finalSend);
    assert command.Save? ==> WprSave(command.path, true) in effects;
    ok := true;
  }

  /** The part that can fail: every early return while the guard is armed cancels the recording. */
  method RecordInner(o: Outcomes)
      returns (ok: bool, effects: seq<Effect>, emitted: seq<Line<Status>>, ghost inputs: seq<SubInput>)
    ensures (ok <==> Answer(o) != Failure) && Transcript(o, ok, effects, emitted)
    ensures SubPossible(Socket(o), inputs)
    ensures var p := SubAfter(Socket(o), inputs);
            p.pc == (if ok then Exited else Failing) && p.effects == effects && p.emitted == emitted
    ensures ok ==> EndedByCommand(effects)
  {
    ok, effects, emitted, inputs := false, [], [], [];
    ghost var p := Socket(o);
    if !o.setup {
      SubExtend(p, [], SetupFails);
      inputs := [] + [SetupFails];
      return;
    }
    effects := [LeftoverCancel, WprStart(o.starts)];
    SubExtend(p, [], if o.starts then StartSucceeds else StartFails);
    inputs := [] + [if o.starts then StartSucceeds else StartFails];
    if !o.starts {
      return;
    }

    ok, effects, emitted, inputs := RecordArmed(o, inputs);
  }

  /** After an early return the failure is sent. */
  method SendFailure(o: Outcomes, done: seq<Effect>, lines: seq<Line<Status>>, ghost start: seq<SubInput>)
      returns (effects: seq<Effect>, emitted: seq<Line<Status>>, ghost inputs: seq<SubInput>)
    requires SubPossible(Socket(o), start)
    requires var p := SubAfter(Socket(o), start); p.pc == Failing && p.effects == done && p.emitted == lines
    requires Answer(o) == Failure && Transcript(o, false, done, lines)
    ensures SubPossible(Socket(o), inputs)
    ensures var p := SubAfter(Socket(o), inputs); p.pc == Exited && p.effects == effects && p.emitted == emitted
    ensures Transcript(o, true, effects, emitted)
  {
    ghost var p := Socket(o);
    SubExtend(p, start, SendResult(o.finalSend));
    inputs := start + [SendResult(o.finalSend)];
    effects, emitted := done + [Sent(Failure, o.finalSend)], lines + LinesOf(Failure, o.finalSend);
  }

  /** What holds of the effects of any run of the subprocess to its end. */
  lemma Accounted(o: Outcomes, inputs: seq<SubInput>)
    requires SubPossible(Socket(o), inputs) && SubAfter(Socket(o), inputs).pc == Exited
    ensures var effects := SubAfter(Socket(o), inputs).effects;
            && ReleaseCount(effects) == Starts(effects) == (if RecorderStarted(effects) then 1 else 0)
            && (RecorderStarted(effects) ==> (EndedByCommand(effects) <==> GuardCancel !in effects))
            && Terminals(effects) <= 1
  {
    SubRunKeepsDiscipline(Socket(o), inputs);
  }

  /**
   The whole subprocess is a run of the protocol's subprocess machine; once the
   recorder has started it is released exactly once, and one final status is attempted,
   which says what was done.
   */
  method RecordEtwTrace(o: Outcomes)
      returns (ok: bool, effects: seq<Effect>, emitted: seq<Line<Status>>, ghost inputs: seq<SubInput>)
    ensures SubPossible(Socket(o), inputs)
    ensures var p := SubAfter(Socket(o), inputs); p.pc == Exited && p.effects == effects && p.emitted == emitted
    ensures ReleaseCount(effects) == Starts(effects) == if RecorderStarted(effects) then 1 else 0
    ensures RecorderStarted(effects) ==> (EndedByCommand(effects) <==> GuardCancel !in effects)
    ensures Terminals(effects) <= 1
    ensures ok <==> o.connects && Answer(o) != Failure
    ensures if o.connects then Transcript(o, true, effects, emitted) else effects == [] && emitted == []
  {
    if !o.connects {
      ok, effects, emitted, inputs := false, [], [], [ConnectFails];
      assert inputs[1..] == [];
    } else {
      ok, effects, emitted, inputs := RecordInner(o);
      if !ok {
        effects, emitted, inputs := SendFailure(o, effects, emitted, inputs);
      }
    }
    Accounted(o, inputs);
  }
}
