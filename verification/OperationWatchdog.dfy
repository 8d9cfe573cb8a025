/** What a target has to do so that it is never timed out. */
module OperationWatchdog {
  import opened Bytes
  import opened Grammar
  import opened Files
  import opened OperationState
  import opened OperationSafety
  import opened OperationTally
  import opened OperationTransfers
  import F = Filenames

  /** The request is for the status file, as far as the operation looks at its name. */
  predicate AsksForStatus(s: State, request: RequestType, filename: string) {
    && !Foreign(s, filename) && F.ParseFilename(filename).fileType == StatusFileType(s.kind)
    && (s.kind == Information || request == Write)
  }

  /**
   * The event shows that the target is alive: an accepted initialisation file, an accepted or in-progress status, a
   * status request that is answered with an abort, or the list of an information operation that waits for its final
   * status. The value is the exception time that the target asks for.
   */
  function SignOfLife(s: State, e: Event): Option<nat> {
    match e
    case InitialisationDone(id, ok, file, calls) =>
      if ok && DecodeFile(INIT, file).Some? && AcceptanceCode(file) == OPERATION_ACCEPTED
         && !ReactionThrows(InitialisationOver(s, id), calls)
      then Some(0) else None
    case StatusDone(id, ok, file, calls) =>
      if ok && ReportsProgress(s.kind, file) && !ReactionThrows(StatusOver(s, id), calls)
      then
        var status := ReadStatus(s.kind, file).value;
        Some(if status.code == OPERATION_ACCEPTED then 0 else status.exceptionTimer)
      else None
    case ListDone(id, ok, file, calls) =>
      if s.kind == Information && s.waitForFinalStatus && ok && DecodeFile(LCL, file).Some?
         && !ReactionThrows(ListOver(s, id), calls)
      then Some(0) else None
    case Requested(_, request, filename) =>
      if s.abortReason != NoAbort && AsksForStatus(s, request, filename) then Some(0) else None
    case _ => None
  }

  // ---- What a step does to the timer ---------------------------------------------------------------------------------------------

  /** Nothing was reported and the timer is as before, or something was, the timer is disarmed and the server is down. */
  predicate Idle(s: State, t: State) {
    && t.now == s.now && t.dlpTimeout == s.dlpTimeout && t.kind == s.kind
    && if TallyOf(t).finishes == TallyOf(s).finishes then t.timer == s.timer && (t.serverUp ==> s.serverUp)
       else TallyOf(t).finishes > TallyOf(s).finishes && t.timer == None && !t.serverUp
  }

  predicate NotArmed(s: State, t: State) {
    Idle(s, t) && t.waitForFinalStatus == s.waitForFinalStatus
  }

  lemma NotArmedTwice(s: State, r: State, t: State)
    requires NotArmed(s, r) && NotArmed(r, t)
    ensures NotArmed(s, t)
  {
    hide TallyOf;
  }

  lemma FinishNotArmed(s: State, code: uint16, cause: Cause)
    requires cause != DlpTimeout
    ensures NotArmed(s, Finish(s, code, cause))
  {
    hide TallyOf;
    FinishTally(s, code, cause, 0);
  }

  lemma AbortNotArmed(s: State, reason: AbortReason)
    ensures NotArmed(s, DoAbort(s, reason))
  {
    hide TallyOf;
    AbortTally(s, reason);
  }

  lemma CallNotArmed(s: State, call: Call)
    ensures NotArmed(s, DoCall(s, call))
  {
    hide TallyOf, FileOf, DoAbort;
    CallTally(s, call);
    if call.Abort? {
      AbortNotArmed(s, call.reason);
    }
  }

  lemma {:induction false} ReactNotArmed(s: State, calls: seq<Call>)
    ensures NotArmed(s, React(s, calls))
    decreases |calls|
  {
    hide DoCall, Throws, NotArmed;
    if calls != [] && !Throws(s, calls[0]) {
      CallNotArmed(s, calls[0]);
      ReactNotArmed(DoCall(s, calls[0]), calls[1..]);
      NotArmedTwice(s, DoCall(s, calls[0]), React(DoCall(s, calls[0]), calls[1..]));
    } else {
      NothingHappens(s);
    }
  }

  lemma NothingHappens(s: State)
    ensures NotArmed(s, s)
  {
  }

  lemma OverNotArmed(s: State, id: Id)
    ensures NotArmed(s, InitialisationOver(s, id)) && NotArmed(s, StatusOver(s, id))
    ensures NotArmed(s, ListOver(s, id)) && NotArmed(s, ClientOver(s, id))
  {
    hide TallyOf, Without;
    OverTally(s, id);
  }

  predicate ArmedFor(s: State, t: State, exceptionTime: nat) {
    t.now == s.now && t.timer.Some? && IsDeadline(s.now, exceptionTime, s.dlpTimeout, t.timer.value)
  }

  /** What the event does, by whether it is a sign of life. */
  predicate Answered(s: State, t: State, sign: Option<nat>) {
    if sign == None then Idle(s, t) else ArmedFor(s, t, sign.value)
  }

  lemma TakenInitialisation(s: State, threw: bool, file: seq<byte>)
    requires DecodeFile(INIT, file).Some?
    ensures !threw && AcceptanceCode(file) == OPERATION_ACCEPTED ==> ArmedFor(s, TakeInitialisation(s, threw, file), 0)
    ensures threw || AcceptanceCode(file) != OPERATION_ACCEPTED ==> NotArmed(s, TakeInitialisation(s, threw, file))
  {
    hide DecodeFile, AcceptanceCode, Finish, TallyOf, NotArmed;
    FinishNotArmed(s, OPERATION_ABORTED_BY_DLP, InitialisationFailed);
    FinishNotArmed(s, AcceptanceCode(file), TargetAnswer);
    FinishNotArmed(s, OPERATION_ABORTED_BY_DLP, UnknownAcceptance);
  }

  lemma InitialisationAnswered(s: State, id: Id, ok: bool, file: seq<byte>, calls: seq<Call>)
    ensures Answered(s, InitialisationCompleted(s, id, ok, file, calls), SignOfLife(s, InitialisationDone(id, ok, file, calls)))
  {
    hide DecodeFile, AcceptanceCode, ReactionThrows, React, TakeInitialisation, InitialisationOver, Finish, TallyOf;
    var s0 := InitialisationOver(s, id);
    OverNotArmed(s, id);
    FinishNotArmed(s0, OPERATION_ABORTED_BY_DLP, InitialisationFailed);
    NotArmedTwice(s, s0, Finish(s0, OPERATION_ABORTED_BY_DLP, InitialisationFailed));
    if ok && DecodeFile(INIT, file).Some? {
      var r := React(s0, calls);
      var t := TakeInitialisation(r, ReactionThrows(s0, calls), file);
      ReactNotArmed(s0, calls);
      NotArmedTwice(s, s0, r);
      TakenInitialisation(r, ReactionThrows(s0, calls), file);
      if !ArmedFor(r, t, 0) {
        NotArmedTwice(s, r, t);
      }
    }
  }

  lemma FinalStatusNotArmed(s: State, status: StatusInfo, file: seq<byte>)
    requires !IsProgress(status.code)
    ensures NotArmed(s, TakeStatus(s, status, file))
  {
    hide Finish, TallyOf, NotArmed;
    var s1 := Log(s, StatusTaken(file));
    LogNotArmed(s, StatusTaken(file));
    FinishNotArmed(s1, status.code, TargetStatus);
    FinishNotArmed(s1, OPERATION_ABORTED_BY_DLP, UnknownStatus);
    NotArmedTwice(s, s1, TakeStatus(s, status, file));
  }

  lemma LogNotArmed(s: State, n: Note)
    requires !n.Finished?
    ensures NotArmed(s, Log(s, n))
  {
    hide TallyOf;
    LogTally(s, n);
  }

  lemma QuietStatus(s: State, ok: bool, file: seq<byte>, calls: seq<Call>)
    requires !(ok && ReportsProgress(s.kind, file) && !ReactionThrows(s, calls))
    ensures NotArmed(s, StatusReceived(s, ok, file, calls))
  {
    hide ReadStatus, DecodeFile, KnownStatus, ReactionThrows, React, TakeStatus, Finish, TallyOf, NotArmed, IsProgress;
    FinishNotArmed(s, OPERATION_ABORTED_BY_DLP, StatusTransferFailed);
    NothingHappens(s);
    var r := React(s, calls);
    ReactNotArmed(s, calls);
    if ok && ReadStatus(s.kind, file).Some? && !ReactionThrows(s, calls) {
      FinalStatusNotArmed(r, ReadStatus(s.kind, file).value, file);
      NotArmedTwice(s, r, TakeStatus(r, ReadStatus(s.kind, file).value, file));
    }
  }

  lemma StatusAnswered(s: State, id: Id, ok: bool, file: seq<byte>, calls: seq<Call>)
    requires Reachable(s) && id in s.world.statuses
    ensures Answered(s, StatusFileCompleted(s, id, ok, file, calls), SignOfLife(s, StatusDone(id, ok, file, calls)))
  {
    hide Reachable, Inv, Watched, ReadStatus, DecodeFile, KnownStatus, ReactionThrows, StatusReceived, StatusOver, Finish, TallyOf,
         Removed, IsProgress, NotArmed, Idle, Deadline;
    ReachableKeeps(s);
    StatusIsInitiated(s, id);
    OverNotArmed(s, id);
    var s0 := StatusOver(s, id);
    var t := StatusFileCompleted(s, id, ok, file, calls);
    assert t == StatusReceived(s0, ok, file, calls);
    SameKind(s, s0);
    if ok && ReportsProgress(s.kind, file) && !ReactionThrows(s0, calls) {
      ProgressMovesTheDeadline(s, id, file, calls);
      StatusKeeps(s, id, ok, file, calls);
      TimerIsDeadline(t);
      StatusClock(s, id, file, calls);
    } else {
      QuietStatus(s0, ok, file, calls);
      NotArmedTwice(s, s0, t);
      SameFlag(s, t);
    }
  }

  lemma SameKind(s: State, t: State)
    requires NotArmed(s, t)
    ensures t.kind == s.kind
  {
  }

  lemma SameFlag(s: State, t: State)
    requires NotArmed(s, t)
    ensures Idle(s, t)
  {
  }

  lemma StatusClock(s: State, id: Id, file: seq<byte>, calls: seq<Call>)
    requires Removed(s.statusTransfers, id) == 1 && ReadStatus(s.kind, file).Some? && !ReactionThrows(StatusOver(s, id), calls)
    ensures StatusFileCompleted(s, id, true, file, calls).now == s.now
  {
    hide ReadStatus, DecodeFile, KnownStatus, ReactionThrows, React, TakeStatus, StatusFileCompleted, StatusOver, Removed;
    StatusIsTaken(s, id, file, calls);
    StatusOverFrame(s, id);
    ReactClock(StatusOver(s, id), calls);
    TakenClock(React(StatusOver(s, id), calls), ReadStatus(s.kind, file).value, file);
  }

  lemma TakenClock(s: State, status: StatusInfo, file: seq<byte>)
    ensures TakeStatus(s, status, file).now == s.now
  {
  }

  lemma ListEnd(s: State, file: seq<byte>)
    ensures NotArmed(s, ListFailed(s))
    ensures s.kind == Information && s.waitForFinalStatus ==> ArmedFor(s, TakeList(s, file), 0)
    ensures !(s.kind == Information && s.waitForFinalStatus) ==> NotArmed(s, TakeList(s, file))
  {
    hide Finish, DoAbort, TallyOf, NotArmed;
    AbortNotArmed(s, Protocol);
    FinishNotArmed(s, OPERATION_ABORTED_BY_DLP, InvalidList);
    var s1 := Log(s, ListTaken(file));
    LogNotArmed(s, ListTaken(file));
    FinishNotArmed(s1, OPERATION_COMPLETED, ListReceived);
    NotArmedTwice(s, s1, Finish(s1, OPERATION_COMPLETED, ListReceived));
  }

  lemma ListAnswered(s: State, id: Id, ok: bool, file: seq<byte>, calls: seq<Call>)
    ensures Answered(s, ListFileCompleted(s, id, ok, file, calls), SignOfLife(s, ListDone(id, ok, file, calls)))
  {
    hide DecodeFile, ReactionThrows, React, ListFailed, TakeList, ListOver, TallyOf;
    var s0 := ListOver(s, id);
    var r := React(s0, calls);
    var t := ListFileCompleted(s, id, ok, file, calls);
    OverNotArmed(s, id);
    ReactNotArmed(s0, calls);
    NotArmedTwice(s, s0, r);
    ListEnd(s0, file);
    ListEnd(r, file);
    NotArmedTwice(s, s0, ListFailed(s0));
    NotArmedTwice(s, r, ListFailed(r));
    if !ArmedFor(r, TakeList(r, file), 0) {
      NotArmedTwice(s, r, TakeList(r, file));
    }
  }

  lemma StatusRequestAnswered(s: State, remote: nat)
    ensures Answered(s, StatusFileRequest(s, remote), if s.abortReason == NoAbort then None else Some(0))
  {
    hide TallyOf;
    StatusRequestTally(s, remote);
  }

  lemma ListRequestAnswered(s: State)
    ensures NotArmed(s, ListFileRequest(s))
  {
    hide TallyOf;
    ListRequestTally(s);
  }

  lemma RequestAnswered(s: State, remote: nat, request: RequestType, filename: string)
    ensures Answered(s, TftpRequest(s, remote, request, filename), SignOfLife(s, Requested(remote, request, filename)))
  {
    hide Foreign, F.ParseFilename, StatusFileRequest, ListFileRequest, TallyOf, Log, NotArmed, Idle, ArmedFor;
    var s1 := Log(s, ErrorSent(remote));
    LogNotArmed(s, ErrorSent(remote));
    LogNotArmed(s, FileRequested(remote, filename));
    LogNotArmed(s1, ErrorSent(remote));
    NotArmedTwice(s, s1, Log(s1, ErrorSent(remote)));
    NothingHappens(s);
    LogFields(s, ErrorSent(remote));
    LogFields(s, FileRequested(remote, filename));
    LogFields(s1, ErrorSent(remote));
    StatusRequestAnswered(s, remote);
    AfterError(s, s1, remote);
    ListRequestAnswered(s);
    ListRequestAnswered(s1);
    NotArmedTwice(s, s1, ListFileRequest(s1));
    SameFlag(s, ListFileRequest(s1));
    SameFlag(s, ListFileRequest(s));
    SameFlag(s, Log(s1, ErrorSent(remote)));
    SameFlag(s, s1);
    SameFlag(s, s);
    SameFlag(s, Log(s, FileRequested(remote, filename)));
  }

  lemma LogFields(s: State, n: Note)
    ensures Log(s, n) == s.(history := Log(s, n).history)
  {
  }

  lemma AfterError(s: State, s1: State, remote: nat)
    requires s1 == Log(s, ErrorSent(remote))
    ensures Answered(s, StatusFileRequest(s1, remote), if s.abortReason == NoAbort then None else Some(0))
  {
    hide TallyOf, StatusFileRequest;
    LogTally(s, ErrorSent(remote));
    StatusRequestAnswered(s1, remote);
  }

  lemma TimerAnswered(s: State, error: bool)
    ensures NotArmed(s, TimerHandler(s, error))
  {
    hide TallyOf;
    TimerTally(s, error);
  }

  lemma ClientAnswered(s: State, id: Id, ok: bool)
    ensures NotArmed(s, ClientTransferCompleted(s, id, ok))
  {
    hide TallyOf, DoAbort;
    ClientTally(s, id, ok);
    OverNotArmed(s, id);
    AbortNotArmed(ClientOver(s, id), Protocol);
  }

  lemma StartStepsNothing(s: State)
    ensures SignOfLife(s, StartRequested) == None && TallyOf(Step(s, StartRequested)) == TallyOf(s)
    ensures Step(s, StartRequested).timer == s.timer && Step(s, StartRequested).now == s.now
  {
    hide TallyOf;
    StartTally(s);
  }

  /** Only signs of life arm the timer, and only a report disarms it. */
  lemma StepAnswered(s: State, e: Event)
    requires Reachable(s) && Enabled(s, e) && !e.TimePassed? && !e.StartRequested?
    ensures Answered(s, Step(s, e), SignOfLife(s, e))
  {
    hide Reachable, Start, DoCall, TftpRequest, InitialisationCompleted, StatusFileCompleted, ListFileCompleted,
         ClientTransferCompleted, TimerHandler, NotArmed, Idle, ArmedFor, ReportsProgress, AsksForStatus, DecodeFile, ReactionThrows,
         AcceptanceCode;
    match e {
      case Called(call) =>
        CallNotArmed(s, call);
        SameFlag(s, DoCall(s, call));
      case Requested(remote, request, filename) => RequestAnswered(s, remote, request, filename);
      case InitialisationDone(id, ok, file, calls) => InitialisationAnswered(s, id, ok, file, calls);
      case StatusDone(id, ok, file, calls) => StatusAnswered(s, id, ok, file, calls);
      case ListDone(id, ok, file, calls) => ListAnswered(s, id, ok, file, calls);
      case ClientDone(id, ok) =>
        ClientAnswered(s, id, ok);
        SameFlag(s, ClientTransferCompleted(s, id, ok));
      case TimerExpired =>
        TimerAnswered(s, false);
        SameFlag(s, TimerHandler(s, false));
      case TimerFailed =>
        TimerAnswered(s, true);
        SameFlag(s, TimerHandler(s, true));
    }
  }

  // ---- Runs -------------------------------------------------------------------------------------------------------------------------

  /** When the next sign of life is due, if it was `due` before; after a report none is. */
  function DueAfter(s: State, e: Event, due: Option<nat>): Option<nat> {
    match SignOfLife(s, e)
    case Some(exceptionTime) => Some(s.now + if exceptionTime < s.dlpTimeout then s.dlpTimeout else exceptionTime)
    case None => if TallyOf(Step(s, e)).finishes > TallyOf(s).finishes then None else due
  }

  /** Time passes only to before the next sign of life is due, and no sign of life gives no time at all. */
  predicate AnswersInTime(s: State, es: seq<Event>, due: Option<nat>)
    decreases |es|
  {
    es != [] ==>
      && (es[0].TimePassed? && due.Some? ==> s.now + es[0].seconds < due.value)
      && (SignOfLife(s, es[0]).Some? ==> SignOfLife(s, es[0]).value > 0 || s.dlpTimeout > 0)
      && AnswersInTime(Step(s, es[0]), es[1..], DueAfter(s, es[0], due))
  }

  lemma StepIsDue(s: State, e: Event)
    requires Reachable(s) && Enabled(s, e)
    ensures Step(s, e).timer == DueAfter(s, e, s.timer)
    ensures Step(s, e).now == if e.TimePassed? then s.now + e.seconds else s.now
    ensures e.TimePassed? ==> Step(s, e).timer == s.timer
  {
    hide Reachable, Enabled, SignOfLife, TallyOf, Step;
    if e.TimePassed? {
      TimeStep(s, e);
    } else if e.StartRequested? {
      StartStepsNothing(s);
    } else {
      StepAnswered(s, e);
    }
  }

  lemma TimeStep(s: State, e: Event)
    requires e.TimePassed?
    ensures Step(s, e) == s.(now := s.now + e.seconds) && SignOfLife(s, e) == None
    ensures TallyOf(Step(s, e)) == TallyOf(s)
  {
  }

  lemma {:induction false} NoTimeout(s: State, es: seq<Event>)
    requires Reachable(s) && Possible(s, es) && AnswersInTime(s, es, s.timer)
    requires s.timer.Some? ==> s.now < s.timer.value
    ensures TallyOf(After(s, es)).timeouts == TallyOf(s).timeouts
    decreases |es|
  {
    hide Reachable, Step, SignOfLife, TallyOf;
    if es != [] {
      StepTally(s, es[0]);
      StepIsDue(s, es[0]);
      ReachableStep(s, es[0]);
      NoTimeout(Step(s, es[0]), es[1..]);
    }
  }

  /** Over a whole run: a target that gives its signs of life in time is never timed out. */
  lemma PromptTargetsAreNotTimedOut(kind: Kind, target: F.TargetId, dlpTimeout: nat, es: seq<Event>)
    requires Possible(Initial(kind, target, dlpTimeout), es) && AnswersInTime(Initial(kind, target, dlpTimeout), es, None)
    ensures TallyOf(After(Initial(kind, target, dlpTimeout), es)).timeouts == 0
  {
    hide Possible, After, Step, AnswersInTime;
    NoEventsYet(Initial(kind, target, dlpTimeout));
    RunIsReachable(kind, target, dlpTimeout, []);
    NoTimeout(Initial(kind, target, dlpTimeout), es);
  }

  lemma NoEventsYet(s: State)
    ensures Possible(s, []) && After(s, []) == s
  {
  }
}
