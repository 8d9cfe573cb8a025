/** Counting what a run has reported: calls of `finished`, timeouts, statuses taken and files sent to the target. */
module OperationTally {
  import opened Bytes
  import opened Grammar
  import opened Files
  import opened OperationState
  import opened OperationSafety
  import F = Filenames

  datatype Tally = Tally(finishes: nat, timeouts: nat, taken: set<seq<byte>>, sentFiles: seq<seq<byte>>)

  function AddTo(t: Tally, n: Note): Tally {
    match n
    case Finished(_, _, cause) =>
      t.(finishes := t.finishes + 1, timeouts := t.timeouts + if cause == DlpTimeout then 1 else 0)
    case StatusTaken(file) => t.(taken := t.taken + {file})
    case TransferBegun(_, ClientTransfer, file) => t.(sentFiles := t.sentFiles + [file])
    case _ => t
  }

  function Count(h: History): Tally {
    match h
    case Empty => Tally(0, 0, {}, [])
    case Snoc(b, n) => AddTo(Count(b), n)
  }

  function TallyOf(s: State): Tally {
    Count(s.history)
  }

  function Terminates(calls: seq<Call>): nat {
    if calls == [] then 0 else (if calls[0].Terminate? then 1 else 0) + Terminates(calls[1..])
  }

  /** The files that a reaction hands over: until a call throws, one for each load list, answer or request. */
  function Handed(s: State, calls: seq<Call>): seq<seq<byte>> {
    if calls == [] || Throws(s, calls[0]) then []
    else if calls[0].Submit? && !s.sent then [FileOf(s.version, calls[0].payload).value] + Handed(s, calls[1..])
    else Handed(s, calls[1..])
  }

  lemma {:induction false} SameHanded(s: State, t: State, calls: seq<Call>)
    requires s.sent == t.sent && s.version == t.version
    ensures Handed(s, calls) == Handed(t, calls)
  {
    hide FileOf;
    if calls != [] {
      SameHanded(s, t, calls[1..]);
    }
  }

  lemma HandingFrame(s: State, call: Call)
    ensures DoCall(s, call).sent == s.sent && DoCall(s, call).version == s.version
  {
    hide FileOf;
  }

  /** `t` has at most so many more calls of `finished` than `s`, no more timeouts, and only these files besides. */
  predicate Within1(s: Tally, t: Tally, finishes: nat, taken: set<seq<byte>>, handed: seq<seq<byte>>) {
    && t.finishes <= s.finishes + finishes && t.timeouts == s.timeouts && t.taken <= s.taken + taken
    && t.sentFiles == s.sentFiles + handed
  }

  lemma CallTally(s: State, call: Call)
    ensures TallyOf(DoCall(s, call)) ==
            match call
            case Abort(_) => TallyOf(s)
            case Terminate(_) => TallyOf(s).(finishes := TallyOf(s).finishes + 1)
            case Submit(p) =>
              if s.sent || FileOf(s.version, p) == None then TallyOf(s)
              else TallyOf(s).(sentFiles := TallyOf(s).sentFiles + [FileOf(s.version, p).value])
  {
    hide FileOf;
    AbortTally(s, match call case Abort(reason) => reason case _ => NoAbort);
  }

  lemma AbortTally(s: State, reason: AbortReason)
    ensures TallyOf(CancelInitialisation(s)) == TallyOf(s)
    ensures TallyOf(DoAbort(s, reason)) == TallyOf(s)
  {
    assert TallyOf(Log(s, AbortAccepted(reason))) == TallyOf(s);
  }

  lemma {:induction false} ReactTally(s: State, calls: seq<Call>)
    ensures Within1(TallyOf(s), TallyOf(React(s, calls)), Terminates(calls), {}, Handed(s, calls))
    decreases |calls|
  {
    hide DoCall, TallyOf, FileOf;
    if calls != [] && !Throws(s, calls[0]) {
      CallTally(s, calls[0]);
      HandingFrame(s, calls[0]);
      SameHanded(s, DoCall(s, calls[0]), calls[1..]);
      ReactTally(DoCall(s, calls[0]), calls[1..]);
    }
  }

  lemma LogTally(s: State, n: Note)
    ensures TallyOf(Log(s, n)) == AddTo(TallyOf(s), n)
  {
  }

  lemma FinishTally(s: State, code: uint16, cause: Cause, exceptionTime: nat)
    ensures cause != DlpTimeout ==> TallyOf(Finish(s, code, cause)) == TallyOf(s).(finishes := TallyOf(s).finishes + 1)
    ensures TallyOf(TriggerDlpTimeout(s, exceptionTime)) == TallyOf(s)
  {
  }

  lemma InitialisationTally(s: State, id: Id, ok: bool, file: seq<byte>, calls: seq<Call>)
    ensures Within1(TallyOf(s), TallyOf(InitialisationCompleted(s, id, ok, file, calls)), 1 + Terminates(calls), {},
                    if ok && DecodeFile(INIT, file).Some? then Handed(s, calls) else [])
  {
    hide DecodeFile, ReactionThrows, React, Finish, TakeInitialisation, InitialisationOver, Handed, TallyOf;
    var s0 := InitialisationOver(s, id);
    OverTally(s, id);
    SameHanded(s, s0, calls);
    ReactTally(s0, calls);
    FinishTally(s0, OPERATION_ABORTED_BY_DLP, InitialisationFailed, 0);
    if DecodeFile(INIT, file).Some? {
      TakeInitialisationTally(React(s0, calls), ReactionThrows(s0, calls), file);
    }
  }

  lemma TakeInitialisationTally(s: State, threw: bool, file: seq<byte>)
    requires DecodeFile(INIT, file).Some?
    ensures Within1(TallyOf(s), TallyOf(TakeInitialisation(s, threw, file)), 1, {}, [])
  {
    hide DecodeFile, AcceptanceCode, Finish, TriggerDlpTimeout, TallyOf;
    var code := AcceptanceCode(file);
    LogTally(s, InitialisationTaken(file));
    var s1 := Log(s, InitialisationTaken(file)).(version := DecodeFile(INIT, file).value.version);
    SameTally(Log(s, InitialisationTaken(file)), s1);
    FinishTally(s1, 0, InitialisationFailed, 0);
    FinishTally(s, OPERATION_ABORTED_BY_DLP, InitialisationFailed, 0);
    FinishTally(s, OPERATION_ABORTED_BY_DLP, UnknownAcceptance, 0);
    FinishTally(s, code, TargetAnswer, 0);
  }

  lemma SameTally(s: State, t: State)
    requires s.history == t.history
    ensures TallyOf(s) == TallyOf(t)
  {
  }

  lemma StatusTally(s: State, id: Id, ok: bool, file: seq<byte>, calls: seq<Call>)
    ensures var t := StatusFileCompleted(s, id, ok, file, calls);
            Within1(TallyOf(s), TallyOf(t), (if Removed(s.statusTransfers, id) == 1 then 1 else 2) + Terminates(calls),
                    if ok then {file} else {},
                    if StatusIsPassedOn(s, id, ok, file) then Handed(s, calls) else [])
  {
    hide ReadStatus, StatusOver, Removed, Finish, StatusReceived, TallyOf, Handed;
    var s0 := StatusOver(s, id);
    OverTally(s, id);
    FinishTally(s0, OPERATION_ABORTED_BY_DLP, TransferNotInitiated, 0);
    FinishFrame(s0, OPERATION_ABORTED_BY_DLP, TransferNotInitiated);
    var s1 := if Removed(s.statusTransfers, id) == 1 then s0
              else Finish(s0, OPERATION_ABORTED_BY_DLP, TransferNotInitiated);
    SameHanded(s, s1, calls);
    StatusReceivedTally(s1, ok, file, calls);
  }

  lemma StatusReceivedTally(s: State, ok: bool, file: seq<byte>, calls: seq<Call>)
    ensures Within1(TallyOf(s), TallyOf(StatusReceived(s, ok, file, calls)), 1 + Terminates(calls),
                    if ok then {file} else {}, if ok && ReadStatus(s.kind, file).Some? then Handed(s, calls) else [])
  {
    hide ReadStatus, DecodeFile, KnownStatus, ReactionThrows, React, Finish, TakeStatus, TallyOf, Handed, Within1, Terminates;
    var r := React(s, calls);
    FinishTally(s, OPERATION_ABORTED_BY_DLP, StatusTransferFailed, 0);
    Added(TallyOf(s), Terminates(calls), {file});
    ReactTally(s, calls);
    if ok && ReadStatus(s.kind, file).Some? {
      var t := TakeStatus(r, ReadStatus(s.kind, file).value, file);
      TakeStatusTally(r, ReadStatus(s.kind, file).value, file);
      Composed(TallyOf(s), TallyOf(r), TallyOf(r), Terminates(calls), {file}, Handed(s, calls));
      Composed(TallyOf(s), TallyOf(r), TallyOf(t), Terminates(calls), {file}, Handed(s, calls));
    }
  }

  lemma Added(s: Tally, more: nat, taken: set<seq<byte>>)
    ensures Within1(s, s, 1 + more, taken, []) && Within1(s, s, 1 + more, {}, [])
    ensures Within1(s, s.(finishes := s.finishes + 1), 1 + more, taken, [])
    ensures Within1(s, s.(finishes := s.finishes + 1), 1 + more, {}, [])
  {
  }

  lemma Composed(s: Tally, r: Tally, t: Tally, n: nat, taken: set<seq<byte>>, handed: seq<seq<byte>>)
    requires Within1(s, r, n, {}, handed) && (r == t || Within1(r, t, 1, taken, []))
    ensures Within1(s, t, 1 + n, taken, handed)
  {
  }

  /** The handler is called back for a completed status transfer. */
  predicate StatusIsPassedOn(s: State, id: Id, ok: bool, file: seq<byte>) {
    ok && ReadStatus(s.kind, file).Some? && (Removed(s.statusTransfers, id) == 1 || s.kind != Information)
  }

  lemma FinishFrame(s: State, code: uint16, cause: Cause)
    ensures var t := Finish(s, code, cause); t.sent == s.sent && t.version == s.version && t.kind == s.kind
  {
  }

  lemma OverTally(s: State, id: Id)
    ensures forall t <- [InitialisationOver(s, id), StatusOver(s, id), ListOver(s, id), ClientOver(s, id)] ::
              TallyOf(t) == TallyOf(s) && t.kind == s.kind && t.sent == s.sent && t.version == s.version
  {
  }

  lemma TakeStatusTally(s: State, status: StatusInfo, file: seq<byte>)
    ensures Within1(TallyOf(s), TallyOf(TakeStatus(s, status, file)), 1, {file}, [])
  {
    hide Finish, TriggerDlpTimeout, TallyOf, Log;
    LogTally(s, StatusTaken(file));
    var s1 := Log(s, StatusTaken(file));
    var s2 := s1.(waitForFinalStatus := true);
    SameTally(s1, s2);
    FinishTally(s1, status.code, TargetStatus, 0);
    FinishTally(s1, OPERATION_ABORTED_BY_DLP, UnknownStatus, status.exceptionTimer);
    FinishTally(s2, OPERATION_ABORTED_BY_DLP, UnknownStatus, status.exceptionTimer);
    FinishTally(s2, OPERATION_ABORTED_BY_DLP, UnknownStatus, 0);
  }

  lemma ListTally(s: State, id: Id, ok: bool, file: seq<byte>, calls: seq<Call>)
    ensures Within1(TallyOf(s), TallyOf(ListFileCompleted(s, id, ok, file, calls)), 1 + Terminates(calls), {},
                    if ok && DecodeFile(ListKind(s.kind), file).Some? then Handed(s, calls) else [])
  {
    hide DecodeFile, ReactionThrows, React, ListFailed, TakeList, ListOver, Handed, TallyOf;
    var s0 := ListOver(s, id);
    OverTally(s, id);
    SameHanded(s, s0, calls);
    ReactTally(s0, calls);
    ListEndTally(s0, file);
    ListEndTally(React(s0, calls), file);
  }

  lemma ListEndTally(s: State, file: seq<byte>)
    ensures Within1(TallyOf(s), TallyOf(ListFailed(s)), 1, {}, [])
    ensures Within1(TallyOf(s), TallyOf(TakeList(s, file)), 1, {}, [])
  {
    hide Finish, TriggerDlpTimeout, DoAbort, TallyOf;
    AbortTally(s, Protocol);
    LogTally(s, ListTaken(file));
    FinishTally(s, OPERATION_ABORTED_BY_DLP, InvalidList, 0);
    FinishTally(Log(s, ListTaken(file)), OPERATION_COMPLETED, ListReceived, 0);
  }

  lemma ClientTally(s: State, id: Id, ok: bool)
    ensures TallyOf(ClientTransferCompleted(s, id, ok)) == TallyOf(s)
  {
    hide DoAbort;
    var s0 := ClientOver(s, id);
    OverTally(s, id);
    assert TallyOf(s0) == TallyOf(s);
    AbortTally(s0, Protocol);
  }

  lemma RequestTally(s: State, remote: nat, request: RequestType, filename: string)
    ensures TallyOf(TftpRequest(s, remote, request, filename)) == TallyOf(s)
  {
    hide Foreign, F.ParseFilename, StatusFileRequest, ListFileRequest, Log, TallyOf;
    LogTally(s, ErrorSent(remote));
    LogTally(s, FileRequested(remote, filename));
    LogTally(Log(s, ErrorSent(remote)), ErrorSent(remote));
    RequestPartsTally(s, remote);
    RequestPartsTally(Log(s, ErrorSent(remote)), remote);
  }

  lemma RequestPartsTally(s: State, remote: nat)
    ensures TallyOf(StatusFileRequest(s, remote)) == TallyOf(s) && TallyOf(ListFileRequest(s)) == TallyOf(s)
  {
    hide TallyOf;
    StatusRequestTally(s, remote);
    ListRequestTally(s);
  }

  lemma StatusRequestTally(s: State, remote: nat)
    ensures TallyOf(StatusFileRequest(s, remote)) == TallyOf(s)
  {
    hide TallyOf, Log, TriggerDlpTimeout, Begin;
    if s.abortReason == NoAbort {
      BeginTally(s, StatusTransfer);
      SameTally(Begin(s, StatusTransfer, []), StatusFileRequest(s, remote));
    } else {
      LogTally(s, AbortSent(remote, CodeOf(s.abortReason)));
      var s1 := Log(s, AbortSent(remote, CodeOf(s.abortReason)));
      var s2 := s1.(abortReason := NoAbort);
      SameTally(s1, s2);
      FinishTally(s2, 0, TimerError, 0);
    }
  }

  lemma ListRequestTally(s: State)
    ensures TallyOf(ListFileRequest(s)) == TallyOf(s)
  {
    hide TallyOf, Log, Begin;
    var s1 := if s.listTransfer.Some? then Log(s, TransferCancelled(s.listTransfer.value)) else s;
    if s.listTransfer.Some? {
      LogTally(s, TransferCancelled(s.listTransfer.value));
    }
    BeginTally(s1, ListTransfer);
    SameTally(Begin(s1, ListTransfer, []), ListFileRequest(s));
  }

  lemma BeginTally(s: State, role: Role)
    requires role != ClientTransfer
    ensures TallyOf(Begin(s, role, [])) == TallyOf(s)
  {
  }

  lemma StartTally(s: State)
    ensures TallyOf(Start(s)) == TallyOf(s)
  {
    var s1 := Log(s, RunBegun).(
      waitForFinalStatus := if s.kind.Information? then false else s.waitForFinalStatus,
      sent := if s.kind.Information? then s.sent else false,
      serverUp := true);
    assert TallyOf(s1) == TallyOf(s);
    BeginTally(s1, InitialisationTransfer);
  }

  /** How often `finished` may be called in one step, apart from terminations that a handler asks for. */
  function MayFinish(s: State, e: Event): nat {
    match e
    case Called(_) => 0
    case StatusDone(id, _, _, _) => if Removed(s.statusTransfers, id) == 1 then 1 else 2
    case _ => 1
  }

  /** The files that are handed over in one step. */
  function HandedBy(s: State, e: Event): seq<seq<byte>> {
    match e
    case Called(call) => Handed(s, [call])
    case InitialisationDone(_, ok, file, calls) => if ok && DecodeFile(INIT, file).Some? then Handed(s, calls) else []
    case StatusDone(id, ok, file, calls) => if StatusIsPassedOn(s, id, ok, file) then Handed(s, calls) else []
    case ListDone(_, ok, file, calls) => if ok && DecodeFile(ListKind(s.kind), file).Some? then Handed(s, calls) else []
    case _ => []
  }

  lemma StepTally(s: State, e: Event)
    ensures TallyOf(Step(s, e)).sentFiles == TallyOf(s).sentFiles + HandedBy(s, e)
    ensures var t := Step(s, e);
            && TallyOf(t).finishes <= TallyOf(s).finishes + MayFinish(s, e) + Terminates(CallsIn(e))
            && TallyOf(t).taken <= TallyOf(s).taken + (if e.StatusDone? && e.ok then {e.file} else {})
            && (e != TimerExpired ==> TallyOf(t).timeouts == TallyOf(s).timeouts)
  {
    hide InitialisationCompleted, StatusFileCompleted, ListFileCompleted, ClientTransferCompleted, TftpRequest, DoCall,
         Start, Removed, FileOf, TallyOf, DecodeFile, StatusIsPassedOn;
    match e {
      case StartRequested => StartTally(s);
      case Called(call) => CalledTally(s, call);
      case Requested(remote, request, filename) => RequestTally(s, remote, request, filename);
      case InitialisationDone(id, ok, file, calls) => InitialisationTally(s, id, ok, file, calls);
      case StatusDone(id, ok, file, calls) => StatusTally(s, id, ok, file, calls);
      case ListDone(id, ok, file, calls) => ListTally(s, id, ok, file, calls);
      case ClientDone(id, ok) => ClientTally(s, id, ok);
      case TimerExpired => TimerTally(s, false);
      case TimerFailed => TimerTally(s, true);
      case TimePassed(seconds) => SameTally(s, Step(s, e));
    }
  }

  lemma CalledTally(s: State, call: Call)
    ensures TallyOf(DoCall(s, call)).sentFiles == TallyOf(s).sentFiles + Handed(s, [call])
    ensures var t, calls := TallyOf(DoCall(s, call)), [call];
            && t.finishes <= TallyOf(s).finishes + Terminates(calls)
            && t.taken == TallyOf(s).taken && t.timeouts == TallyOf(s).timeouts
  {
    hide DoCall, FileOf, TallyOf;
    CallTally(s, call);
    assert [call][1..] == [];
  }

  lemma TimerTally(s: State, error: bool)
    ensures var t := TallyOf(TimerHandler(s, error));
            && t.finishes == TallyOf(s).finishes + 1 && t.taken == TallyOf(s).taken && t.sentFiles == TallyOf(s).sentFiles
            && (error ==> t.timeouts == TallyOf(s).timeouts)
  {
  }

  // ---- Main results --------------------------------------------------------------------------------------------------------

  /** Apart from the terminations that are asked for, one event calls `finished` at most once. */
  lemma FinishedOncePerEvent(s: State, e: Event)
    requires Reachable(s) && Enabled(s, e)
    ensures TallyOf(Step(s, e)).finishes <= TallyOf(s).finishes + 1 + Terminates(CallsIn(e))
  {
    hide Step;
    StepTally(s, e);
    StatusTransfersAccounted(s);
  }

  /** The files taken as status are files that completed status transfers delivered. */
  lemma {:induction false} TakenWereDelivered(s: State, es: seq<Event>, file: seq<byte>)
    requires file in TallyOf(After(s, es)).taken && file !in TallyOf(s).taken
    ensures exists e <- es :: e.StatusDone? && e.ok && e.file == file
    decreases |es|
  {
    hide Step, TallyOf;
    if es != [] {
      StepTally(s, es[0]);
      if file !in TallyOf(Step(s, es[0])).taken {
        TakenWereDelivered(Step(s, es[0]), es[1..], file);
      }
    }
  }

  /** A status "accepted" or "in progress" that is taken moves the deadline; only the latter's exception timer counts. */
  lemma ProgressMovesTheDeadline(s: State, id: Id, file: seq<byte>, calls: seq<Call>)
    requires Reachable(s) && id in s.world.statuses
    ensures ReportsProgress(s.kind, file) && !ReactionThrows(StatusOver(s, id), calls) ==>
              var status, deadline := ReadStatus(s.kind, file).value, Deadline(StatusFileCompleted(s, id, true, file, calls));
              deadline.Some?
              && IsDeadline(s.now, if status.code == OPERATION_ACCEPTED then 0 else status.exceptionTimer, s.dlpTimeout,
                            deadline.value)
  {
    hide StatusFileCompleted, ReadStatus, ReactionThrows, React, Inv, Watched, StatusOver, TakeStatus, Deadline, Reachable,
         Removed, DecodeFile;
    ReachableKeeps(s);
    StatusIsInitiated(s, id);
    if ReportsProgress(s.kind, file) && !ReactionThrows(StatusOver(s, id), calls) {
      StatusIsTaken(s, id, file, calls);
      StatusOverFrame(s, id);
      ReactClock(StatusOver(s, id), calls);
      ProgressArms(React(StatusOver(s, id), calls), ReadStatus(s.kind, file).value, file);
    }
  }

  lemma StatusIsTaken(s: State, id: Id, file: seq<byte>, calls: seq<Call>)
    requires Removed(s.statusTransfers, id) == 1 && ReadStatus(s.kind, file).Some?
    requires !ReactionThrows(StatusOver(s, id), calls)
    ensures StatusFileCompleted(s, id, true, file, calls) ==
            TakeStatus(React(StatusOver(s, id), calls), ReadStatus(s.kind, file).value, file)
  {
    hide ReadStatus, ReactionThrows, React, Removed, TakeStatus;
  }

  lemma StatusOverFrame(s: State, id: Id)
    ensures var t := StatusOver(s, id); t.now == s.now && t.kind == s.kind && t.dlpTimeout == s.dlpTimeout
  {
  }

  lemma ProgressArms(s: State, status: StatusInfo, file: seq<byte>)
    requires IsProgress(status.code)
    ensures var deadline := Deadline(TakeStatus(s, status, file));
            deadline.Some?
            && IsDeadline(s.now, if status.code == OPERATION_ACCEPTED then 0 else status.exceptionTimer, s.dlpTimeout,
                          deadline.value)
  {
  }

  lemma {:induction false} ReactClock(s: State, calls: seq<Call>)
    ensures React(s, calls).now == s.now && React(s, calls).kind == s.kind && React(s, calls).dlpTimeout == s.dlpTimeout
    decreases |calls|
  {
    hide DoCall;
    if calls != [] && !Throws(s, calls[0]) {
      CallClock(s, calls[0]);
      ReactClock(DoCall(s, calls[0]), calls[1..]);
    }
  }

  lemma CallClock(s: State, call: Call)
    ensures DoCall(s, call).now == s.now && DoCall(s, call).kind == s.kind && DoCall(s, call).dlpTimeout == s.dlpTimeout
  {
    hide FileOf;
  }

  lemma TimerIsDeadline(s: State)
    requires Inv(s)
    ensures s.timer == Deadline(s)
  {
  }
}
