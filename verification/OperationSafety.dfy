/** What holds in every state of every run of an operation. */
module OperationSafety {
  import opened Bytes
  import opened Grammar
  import opened Files
  import opened OperationState
  import F = Filenames

  // ---- What a history says -------------------------------------------------------------------------------------------

  /** Begun and not finished since. */
  predicate Running(h: History) {
    match h
    case Empty => false
    case Snoc(_, RunBegun) => true
    case Snoc(_, Finished(_, _, _)) => false
    case Snoc(b, _) => Running(b)
  }

  predicate ReportsProgress(kind: Kind, file: seq<byte>) {
    ReadStatus(kind, file).Some? && IsProgress(ReadStatus(kind, file).value.code)
  }

  /** A status "accepted" or "in progress" has been taken since the run began. */
  predicate SeenProgress(kind: Kind, h: History) {
    match h
    case Empty => false
    case Snoc(_, RunBegun) => false
    case Snoc(b, StatusTaken(file)) => ReportsProgress(kind, file) || SeenProgress(kind, b)
    case Snoc(b, _) => SeenProgress(kind, b)
  }

  function AcceptedCodes(h: History): seq<uint16> {
    match h
    case Empty => []
    case Snoc(b, AbortAccepted(reason)) => AcceptedCodes(b) + [CodeOf(reason)]
    case Snoc(b, _) => AcceptedCodes(b)
  }

  function SentCodes(h: History): seq<uint16> {
    match h
    case Empty => []
    case Snoc(b, AbortSent(_, code)) => SentCodes(b) + [code]
    case Snoc(b, _) => SentCodes(b)
  }

  /** When the timer was last armed, and with which exception time, unless `finished` was called since. */
  function LastArmed(h: History): Option<(nat, nat)> {
    match h
    case Empty => None
    case Snoc(_, Armed(at, exceptionTime)) => Some((at, exceptionTime))
    case Snoc(_, Finished(_, _, _)) => None
    case Snoc(b, _) => LastArmed(b)
  }

  /** The version in the initialisation file that was accepted last. */
  function AnnouncedVersion(h: History): uint16 {
    match h
    case Empty => 0
    case Snoc(b, InitialisationTaken(file)) =>
      if DecodeFile(INIT, file).Some? then DecodeFile(INIT, file).value.version else 0
    case Snoc(b, _) => AnnouncedVersion(b)
  }

  function StatusesBegun(h: History): set<Id> {
    match h
    case Empty => {}
    case Snoc(b, TransferBegun(id, StatusTransfer, _)) => StatusesBegun(b) + {id}
    case Snoc(b, _) => StatusesBegun(b)
  }

  function StatusesDone(h: History): set<Id> {
    match h
    case Empty => {}
    case Snoc(b, TransferDone(id, StatusTransfer)) => StatusesDone(b) + {id}
    case Snoc(b, _) => StatusesDone(b)
  }

  predicate Within(p: History, h: History) {
    p == h || (h.Snoc? && Within(p, h.before))
  }

  /** The evidence for a call of `finished`, which must precede it, and for an accepted initialisation file. */
  predicate Justified(kind: Kind, dlpTimeout: nat, b: History, n: Note) {
    match n
    case Finished(at, code, cause) =>
      && (code == OPERATION_COMPLETED ==> cause == TargetStatus || cause == ListReceived)
      && (cause == TargetStatus ==>
            && b.Snoc? && b.last.StatusTaken?
            && ReadStatus(kind, b.last.file).Some? && ReadStatus(kind, b.last.file).value.code == code)
      && (cause == ListReceived ==>
            && kind == Information && code == OPERATION_COMPLETED
            && b.Snoc? && b.last.ListTaken? && DecodeFile(LCL, b.last.file).Some? && !SeenProgress(kind, b))
      && (cause == DlpTimeout ==>
            LastArmed(b).Some? && at >= LastArmed(b).value.0 + Max(LastArmed(b).value.1, dlpTimeout))
      && cause != TransferNotInitiated
    case InitialisationTaken(file) => DecodeFile(INIT, file).Some? && AcceptanceCode(file) == OPERATION_ACCEPTED
    case _ => true
  }

  predicate AllJustified(kind: Kind, dlpTimeout: nat, h: History) {
    h.Snoc? ==> Justified(kind, dlpTimeout, h.before, h.last) && AllJustified(kind, dlpTimeout, h.before)
  }

  /** The deadline: both times have passed by then, and one of them has only just. */
  predicate IsDeadline(armed: nat, exceptionTime: nat, dlpTimeout: nat, deadline: nat) {
    && deadline >= armed + exceptionTime && deadline >= armed + dlpTimeout
    && (deadline == armed + exceptionTime || deadline == armed + dlpTimeout)
  }

  // ---- The invariant -----------------------------------------------------------------------------------------------------

  predicate Distinct(ids: seq<Id>) {
    forall i, j :: 0 <= i < j < |ids| ==> ids[i] != ids[j]
  }

  ghost predicate TransfersAccounted(s: State) {
    && Distinct(s.statusTransfers)
    && (forall id :: id in s.statusTransfers <==> id in s.world.statuses)
    && s.world.statuses == StatusesBegun(s.history) - StatusesDone(s.history)
    && (forall id <- StatusesBegun(s.history) :: id < s.nextId)
    && (forall id <- StatusesDone(s.history) :: id < s.nextId)
  }

  function Pending(s: State): seq<uint16> {
    if s.abortReason == NoAbort then [] else [CodeOf(s.abortReason)]
  }

  function Deadline(s: State): Option<nat> {
    match LastArmed(s.history)
    case None => None
    case Some((at, exceptionTime)) => Some(at + Max(exceptionTime, s.dlpTimeout))
  }

  ghost predicate Inv(s: State) {
    && AllJustified(s.kind, s.dlpTimeout, s.history)
    && (s.kind == Information ==> (s.waitForFinalStatus <==> SeenProgress(s.kind, s.history)))
    && AcceptedCodes(s.history) == SentCodes(s.history) + Pending(s)
    && s.timer == Deadline(s)
    && s.version == AnnouncedVersion(s.history)
    && TransfersAccounted(s)
  }

  /** Something will still happen to a running operation. */
  predicate Watched(s: State) {
    Running(s.history) ==> s.world.initialisations != {} || s.timer.Some?
  }

  predicate SameConfiguration(s: State, t: State) {
    s.kind == t.kind && s.dlpTimeout == t.dlpTimeout && s.target == t.target
  }

  // ---- Every piece of a step keeps it --------------------------------------------------------------------------------------

  predicate Harmless(n: Note) {
    match n
    case TransferDone(_, role) => role != StatusTransfer
    case TransferBegun(_, role, _) => role != StatusTransfer
    case TransferCancelled(_) | ErrorSent(_) | FileRequested(_, _) | ListTaken(_) => true
    case _ => false
  }

  lemma NotRunningIsWatched(s: State)
    requires !Running(s.history)
    ensures Watched(s)
  {
  }

  lemma LogKeeps(s: State, n: Note)
    requires Inv(s) && Harmless(n)
    ensures Inv(Log(s, n)) && (Watched(s) ==> Watched(Log(s, n)))
  {
  }

  lemma FinishKeeps(s: State, code: uint16, cause: Cause)
    requires Inv(s) && Justified(s.kind, s.dlpTimeout, s.history, Finished(s.now, code, cause))
    ensures Inv(Finish(s, code, cause)) && !Running(Finish(s, code, cause).history)
  {
  }

  lemma TriggerKeeps(s: State, exceptionTime: nat)
    requires Inv(s)
    ensures Inv(TriggerDlpTimeout(s, exceptionTime)) && Watched(TriggerDlpTimeout(s, exceptionTime))
  {
  }

  lemma CancelKeeps(s: State)
    requires Inv(s)
    ensures Inv(CancelInitialisation(s)) && (Watched(s) ==> Watched(CancelInitialisation(s)))
  {
  }

  lemma AbortKeeps(s: State, reason: AbortReason)
    requires Inv(s)
    ensures Inv(DoAbort(s, reason)) && (Watched(s) ==> Watched(DoAbort(s, reason)))
  {
    if s.abortReason == NoAbort {
      CancelKeeps(if reason == NoAbort then s else Log(s, AbortAccepted(reason)).(abortReason := reason));
    }
  }

  lemma TerminateKeeps(s: State, reason: AbortReason)
    requires Inv(s)
    ensures Inv(DoTerminate(s, reason)) && !Running(DoTerminate(s, reason).history)
  {
    CancelKeeps(s);
    FinishKeeps(CancelInitialisation(s), CodeOf(reason), TerminateRequest);
  }

  lemma BeginKeeps(s: State, role: Role, file: seq<byte>)
    requires Inv(s) && role != StatusTransfer
    ensures Inv(Begin(s, role, file)) && (Watched(s) ==> Watched(Begin(s, role, file)))
    ensures role == InitialisationTransfer ==> Watched(Begin(s, role, file))
  {
  }

  lemma StartKeeps(s: State)
    requires Inv(s)
    ensures Inv(Start(s)) && Watched(Start(s))
  {
    var s1 := Log(s, RunBegun).(
      waitForFinalStatus := if s.kind.Information? then false else s.waitForFinalStatus,
      sent := if s.kind.Information? then s.sent else false,
      serverUp := true);
    BeginKeeps(s1, InitialisationTransfer, []);
  }

  lemma CallKeeps(s: State, call: Call)
    requires Inv(s)
    ensures var t := DoCall(s, call);
            && Inv(t) && SameConfiguration(s, t) && (Watched(s) ==> Watched(t))
            && t.world.initialisations == s.world.initialisations
  {
    hide Inv, Watched, FileOf, Begin, CancelInitialisation;
    match call {
      case Abort(reason) => AbortKeeps(s, reason);
      case Terminate(reason) =>
        TerminateKeeps(s, reason);
        NotRunningIsWatched(DoTerminate(s, reason));
      case Submit(p) =>
        if !s.sent && FileOf(s.version, p).Some? {
          SubmitKeeps(s, FileOf(s.version, p).value);
        }
    }
    CallFrame(s, call);
  }

  lemma CallFrame(s: State, call: Call)
    ensures SameConfiguration(s, DoCall(s, call)) && DoCall(s, call).world.initialisations == s.world.initialisations
  {
    hide FileOf;
  }

  lemma SubmitKeeps(s: State, file: seq<byte>)
    requires Inv(s)
    ensures var t := Begin(s, ClientTransfer, file).(clientTransfer := Some(s.nextId)); Inv(t) && (Watched(s) ==> Watched(t))
  {
  }

  lemma {:induction false} ReactKeeps(s: State, calls: seq<Call>)
    requires Inv(s)
    ensures var t := React(s, calls);
            && Inv(t) && SameConfiguration(s, t) && (Watched(s) ==> Watched(t))
            && t.world.initialisations == s.world.initialisations
    decreases |calls|
  {
    if calls != [] && !Throws(s, calls[0]) {
      CallKeeps(s, calls[0]);
      ReactKeeps(DoCall(s, calls[0]), calls[1..]);
    }
  }

  lemma NoSuccessYet(code: int)
    requires KnownAcceptance(code)
    ensures code != OPERATION_COMPLETED
    ensures code in {OPERATION_ACCEPTED, OPERATION_NOT_ACCEPTED, OPERATION_NOT_SUPPORTED}
  {
  }

  lemma TakeInitialisationKeeps(s: State, threw: bool, file: seq<byte>)
    requires Inv(s) && DecodeFile(INIT, file).Some?
    ensures Inv(TakeInitialisation(s, threw, file)) && Watched(TakeInitialisation(s, threw, file))
  {
    hide DecodeFile, KnownAcceptance, Inv, Watched, Finish, TriggerDlpTimeout;
    var code := AcceptanceCode(file);
    NoSuccessYet(code);
    if threw {
      FinishKeeps(s, OPERATION_ABORTED_BY_DLP, InitialisationFailed);
      NotRunningIsWatched(Finish(s, OPERATION_ABORTED_BY_DLP, InitialisationFailed));
    } else if code == OPERATION_ACCEPTED {
      AnnouncementKeeps(s, file);
      TriggerKeeps(Log(s, InitialisationTaken(file)).(version := DecodeFile(INIT, file).value.version), 0);
    } else {
      FinishKeeps(s, code, TargetAnswer);
      NotRunningIsWatched(Finish(s, code, TargetAnswer));
    }
  }

  lemma AnnouncementKeeps(s: State, file: seq<byte>)
    requires Inv(s) && DecodeFile(INIT, file).Some? && AcceptanceCode(file) == OPERATION_ACCEPTED
    ensures Inv(Log(s, InitialisationTaken(file)).(version := DecodeFile(INIT, file).value.version))
  {
    hide DecodeFile, AcceptanceCode;
  }

  /** The fields that the invariant does not speak of may change. */
  lemma Unobserved(s: State, t: State)
    requires Inv(s) && SameConfiguration(s, t) && t.history == s.history && t.timer == s.timer
    requires t.abortReason == s.abortReason && t.version == s.version && t.waitForFinalStatus == s.waitForFinalStatus
    requires t.statusTransfers == s.statusTransfers && t.world.statuses == s.world.statuses && t.nextId == s.nextId
    ensures Inv(t)
    ensures t.world.initialisations == s.world.initialisations && Watched(s) ==> Watched(t)
  {
  }

  lemma OverKeeps(s: State, id: Id)
    requires Inv(s)
    ensures Inv(InitialisationOver(s, id))
    ensures Inv(ListOver(s, id)) && (Watched(s) ==> Watched(ListOver(s, id)))
    ensures Inv(ClientOver(s, id)) && (Watched(s) ==> Watched(ClientOver(s, id)))
  {
    hide Inv, Watched;
    LogKeeps(s, TransferDone(id, InitialisationTransfer));
    Unobserved(Log(s, TransferDone(id, InitialisationTransfer)), InitialisationOver(s, id));
    LogKeeps(s, TransferDone(id, ListTransfer));
    Unobserved(Log(s, TransferDone(id, ListTransfer)), ListOver(s, id));
    LogKeeps(s, TransferDone(id, ClientTransfer));
    Unobserved(Log(s, TransferDone(id, ClientTransfer)), ClientOver(s, id));
  }

  lemma InitialisationKeeps(s: State, id: Id, ok: bool, file: seq<byte>, calls: seq<Call>)
    requires Inv(s)
    ensures var t := InitialisationCompleted(s, id, ok, file, calls); Inv(t) && Watched(t)
  {
    hide Inv, Watched, Finish, React, ReactionThrows, TakeInitialisation, InitialisationOver, DecodeFile;
    var s0 := InitialisationOver(s, id);
    OverKeeps(s, id);
    if !ok || DecodeFile(INIT, file) == None {
      FinishKeeps(s0, OPERATION_ABORTED_BY_DLP, InitialisationFailed);
      NotRunningIsWatched(Finish(s0, OPERATION_ABORTED_BY_DLP, InitialisationFailed));
    } else {
      ReactKeeps(s0, calls);
      TakeInitialisationKeeps(React(s0, calls), ReactionThrows(s0, calls), file);
    }
  }

  lemma {:induction false} RemovedIfDistinct(ids: seq<Id>, id: Id)
    requires Distinct(ids)
    ensures Removed(ids, id) == if id in ids then 1 else 0
    ensures Distinct(Without(ids, id))
    ensures forall x :: x in Without(ids, id) <==> x in ids && x != id
  {
    if ids != [] {
      assert Distinct(ids[1..]);
      RemovedIfDistinct(ids[1..], id);
      assert forall x :: x in ids <==> x == ids[0] || x in ids[1..];
      assert ids[0] !in ids[1..];
      var w := Without(ids[1..], id);
      assert forall i, j :: 0 <= i < j < |w| ==> w[i] != w[j];
      assert forall i :: 0 <= i < |w| ==> w[i] in w;
    }
  }

  lemma TakeStatusKeeps(s: State, file: seq<byte>)
    requires Inv(s) && ReadStatus(s.kind, file).Some?
    ensures var t := TakeStatus(s, ReadStatus(s.kind, file).value, file); Inv(t) && Watched(t)
  {
    hide ReadStatus, DecodeFile;
    var status := ReadStatus(s.kind, file).value;
    var s1 := Log(s, StatusTaken(file));
    var s2 := if s.kind.Information? then s1.(waitForFinalStatus := true) else s1;
    if IsProgress(status.code) {
      assert Inv(s2);
      TriggerKeeps(s2, if status.code == OPERATION_ACCEPTED then 0 else status.exceptionTimer);
    } else {
      assert Inv(s1);
      if IsFinal(status.code) {
        FinishKeeps(s1, status.code, TargetStatus);
      } else {
        FinishKeeps(s1, OPERATION_ABORTED_BY_DLP, UnknownStatus);
      }
    }
  }

  lemma StatusOverKeeps(s: State, id: Id)
    requires Inv(s) && id in s.world.statuses
    ensures Inv(StatusOver(s, id)) && (Watched(s) ==> Watched(StatusOver(s, id)))
  {
    RemovedIfDistinct(s.statusTransfers, id);
  }

  lemma StatusIsInitiated(s: State, id: Id)
    requires Inv(s) && id in s.world.statuses
    ensures Removed(s.statusTransfers, id) == 1
  {
    RemovedIfDistinct(s.statusTransfers, id);
  }

  /** A completed status transfer is one that was begun and had not completed before. */
  lemma StatusKeeps(s: State, id: Id, ok: bool, file: seq<byte>, calls: seq<Call>)
    requires Inv(s) && id in s.world.statuses
    ensures Removed(s.statusTransfers, id) == 1
    ensures var t := StatusFileCompleted(s, id, ok, file, calls); Inv(t) && (Watched(s) ==> Watched(t))
  {
    hide Inv, Watched, ReadStatus, React, ReactionThrows, TakeStatus, Removed, Without, Finish;
    StatusIsInitiated(s, id);
    StatusOverKeeps(s, id);
    var s0 := StatusOver(s, id);
    if !ok {
      StatusFailedKeeps(s0);
    } else if ReadStatus(s.kind, file).Some? {
      ReactKeeps(s0, calls);
      TakeStatusKeeps(React(s0, calls), file);
    }
  }

  lemma StatusFailedKeeps(s: State)
    requires Inv(s)
    ensures var t := Finish(s, OPERATION_ABORTED_BY_DLP, StatusTransferFailed); Inv(t) && Watched(t)
  {
    FinishKeeps(s, OPERATION_ABORTED_BY_DLP, StatusTransferFailed);
  }

  lemma ListFailedKeeps(s: State)
    requires Inv(s)
    ensures Inv(ListFailed(s)) && (Watched(s) ==> Watched(ListFailed(s)))
  {
    if s.kind.Information? && !s.waitForFinalStatus {
      FinishKeeps(s, OPERATION_ABORTED_BY_DLP, InvalidList);
    } else {
      AbortKeeps(s, Protocol);
    }
  }

  lemma TakeListKeeps(s: State, file: seq<byte>)
    requires Inv(s) && DecodeFile(ListKind(s.kind), file).Some?
    ensures Inv(TakeList(s, file)) && (Watched(s) ==> Watched(TakeList(s, file)))
  {
    LogKeeps(s, ListTaken(file));
    var s1 := Log(s, ListTaken(file));
    if s.kind.Information? {
      if s.waitForFinalStatus {
        TriggerKeeps(s1, 0);
      } else {
        FinishKeeps(s1, OPERATION_COMPLETED, ListReceived);
      }
    }
  }

  lemma ListKeeps(s: State, id: Id, ok: bool, file: seq<byte>, calls: seq<Call>)
    requires Inv(s)
    ensures var t := ListFileCompleted(s, id, ok, file, calls); Inv(t) && (Watched(s) ==> Watched(t))
  {
    hide Inv, Watched, React, ReactionThrows, ListFailed, TakeList, DecodeFile;
    var s0 := ListOver(s, id);
    OverKeeps(s, id);
    if !ok || DecodeFile(ListKind(s.kind), file) == None {
      ListFailedKeeps(s0);
    } else {
      ReactKeeps(s0, calls);
      if ReactionThrows(s0, calls) {
        ListFailedKeeps(React(s0, calls));
      } else {
        TakeListKeeps(React(s0, calls), file);
      }
    }
  }

  lemma ClientKeeps(s: State, id: Id, ok: bool)
    requires Inv(s)
    ensures var t := ClientTransferCompleted(s, id, ok); Inv(t) && (Watched(s) ==> Watched(t))
  {
    hide Inv, Watched, DoAbort;
    var s0 := ClientOver(s, id);
    OverKeeps(s, id);
    if ok {
      Unobserved(s0, s0.(sent := true));
    } else {
      AbortKeeps(s0, Protocol);
    }
  }

  lemma StatusRequestKeeps(s: State, remote: nat)
    requires Inv(s)
    ensures Inv(StatusFileRequest(s, remote)) && (Watched(s) ==> Watched(StatusFileRequest(s, remote)))
  {
    if s.abortReason != NoAbort {
      var s1 := Log(s, AbortSent(remote, CodeOf(s.abortReason))).(abortReason := NoAbort);
      assert Inv(s1);
      TriggerKeeps(s1, 0);
    } else {
      var t := StatusFileRequest(s, remote);
      assert t.statusTransfers == [s.nextId] + s.statusTransfers;
      assert s.nextId !in s.world.statuses && s.nextId !in s.statusTransfers;
      assert forall i :: 0 <= i < |s.statusTransfers| ==> s.statusTransfers[i] in s.statusTransfers;
    }
  }

  lemma ListRequestKeeps(s: State)
    requires Inv(s)
    ensures Inv(ListFileRequest(s)) && (Watched(s) ==> Watched(ListFileRequest(s)))
  {
    hide Inv, Watched;
    var s1 := if s.listTransfer.Some? then Log(s, TransferCancelled(s.listTransfer.value)) else s;
    if s.listTransfer.Some? {
      LogKeeps(s, TransferCancelled(s.listTransfer.value));
    }
    BeginKeeps(s1, ListTransfer, []);
    Unobserved(Begin(s1, ListTransfer, []), ListFileRequest(s));
  }

  lemma RequestKeeps(s: State, remote: nat, request: RequestType, filename: string)
    requires Inv(s)
    ensures var t := TftpRequest(s, remote, request, filename); Inv(t) && (Watched(s) ==> Watched(t))
  {
    hide Inv, Watched, Foreign, F.ParseFilename, StatusFileRequest, ListFileRequest;
    LogKeeps(s, ErrorSent(remote));
    LogKeeps(s, FileRequested(remote, filename));
    LogKeeps(Log(s, ErrorSent(remote)), ErrorSent(remote));
    var s1 := if s.kind == Information && !request.Write? then Log(s, ErrorSent(remote)) else s;
    StatusRequestKeeps(s1, remote);
    ListRequestKeeps(s1);
  }

  lemma TimerKeeps(s: State, error: bool)
    requires Inv(s) && s.timer.Some? && (error || s.timer.value <= s.now)
    ensures Inv(TimerHandler(s, error)) && !Running(TimerHandler(s, error).history)
  {
  }

  lemma StepKeeps(s: State, e: Event)
    requires Inv(s) && Watched(s) && Enabled(s, e)
    ensures Inv(Step(s, e)) && Watched(Step(s, e))
  {
    hide Inv, Watched;
    match e {
      case StartRequested => StartKeeps(s);
      case Called(call) => CallKeeps(s, call);
      case Requested(remote, request, filename) => RequestKeeps(s, remote, request, filename);
      case InitialisationDone(id, ok, file, calls) => InitialisationKeeps(s, id, ok, file, calls);
      case StatusDone(id, ok, file, calls) => StatusKeeps(s, id, ok, file, calls);
      case ListDone(id, ok, file, calls) => ListKeeps(s, id, ok, file, calls);
      case ClientDone(id, ok) => ClientKeeps(s, id, ok);
      case TimerExpired =>
        TimerKeeps(s, false);
        NotRunningIsWatched(Step(s, e));
      case TimerFailed =>
        TimerKeeps(s, true);
        NotRunningIsWatched(Step(s, e));
      case TimePassed(seconds) => TimeKeeps(s, seconds);
    }
  }

  lemma TimeKeeps(s: State, seconds: nat)
    requires Inv(s) && Watched(s)
    ensures Inv(s.(now := s.now + seconds)) && Watched(s.(now := s.now + seconds))
  {
  }

  lemma {:induction false} RunKeeps(s: State, es: seq<Event>)
    requires Inv(s) && Watched(s) && Possible(s, es)
    ensures Inv(After(s, es)) && Watched(After(s, es))
    decreases |es|
  {
    hide Inv, Watched, Step, Enabled;
    if es != [] {
      StepKeeps(s, es[0]);
      RunKeeps(Step(s, es[0]), es[1..]);
    }
  }

  lemma InitialKeeps(kind: Kind, target: F.TargetId, dlpTimeout: nat)
    ensures Inv(Initial(kind, target, dlpTimeout)) && Watched(Initial(kind, target, dlpTimeout))
  {
  }

  lemma ReachableKeeps(s: State)
    requires Reachable(s)
    ensures Inv(s) && Watched(s)
  {
    hide Inv, Watched, After, Possible;
    var kind, target, dlpTimeout, es :|
      Possible(Initial(kind, target, dlpTimeout), es) && s == After(Initial(kind, target, dlpTimeout), es);
    InitialKeeps(kind, target, dlpTimeout);
    RunKeeps(Initial(kind, target, dlpTimeout), es);
  }

  // ---- Main results ----------------------------------------------------------------------------------------------------------

  /** From `start` to the call of `finished`, the initialisation transfer is outstanding or the timer is armed. */
  lemma NeverHangs(s: State)
    requires Reachable(s) && Running(s.history)
    ensures s.world.initialisations != {} || s.timer.Some?
  {
    ReachableKeeps(s);
  }

  lemma {:induction false} WithinJustified(kind: Kind, dlpTimeout: nat, b: History, n: Note, h: History)
    requires AllJustified(kind, dlpTimeout, h) && Within(Snoc(b, n), h)
    ensures Justified(kind, dlpTimeout, b, n)
  {
    if Snoc(b, n) != h {
      WithinJustified(kind, dlpTimeout, b, n, h.before);
    }
  }

  /** A status file with this code was taken last. */
  predicate SaidSo(kind: Kind, b: History, code: uint16) {
    && b.Snoc? && b.last.StatusTaken?
    && ReadStatus(kind, b.last.file).Some? && ReadStatus(kind, b.last.file).value.code == code
  }

  /** A list file was taken last, in a run without any accepted or in-progress status before. */
  predicate ListWithoutProgress(kind: Kind, b: History) {
    && kind == Information && b.Snoc? && b.last.ListTaken?
    && DecodeFile(ListKind(kind), b.last.file).Some? && !SeenProgress(kind, b)
  }

  /** In a run that led to `s`, `finished` was called when the history was `b`. */
  ghost predicate Reported(s: State, b: History, at: nat, code: uint16, cause: Cause) {
    Reachable(s) && Within(Snoc(b, Finished(at, code, cause)), s.history)
  }

  /**
   * Success is reported only right after a status file saying so was taken, or, for the information operation,
   * right after a list was taken in a run without any accepted or in-progress status before.
   */
  lemma SuccessIsAuthentic(s: State, b: History, at: nat, code: uint16, cause: Cause)
    requires Reported(s, b, at, code, cause)
    ensures code == OPERATION_COMPLETED ==> SaidSo(s.kind, b, code) || ListWithoutProgress(s.kind, b)
  {
    ReachableKeeps(s);
    WithinJustified(s.kind, s.dlpTimeout, b, Finished(at, code, cause), s.history);
  }

  /** Whenever a status is passed on, it is the one in the file taken last. */
  lemma PassedOnStatusIsAuthentic(s: State, b: History, at: nat, code: uint16, cause: Cause)
    requires Reported(s, b, at, code, cause)
    ensures cause == TargetStatus ==> SaidSo(s.kind, b, code)
  {
    ReachableKeeps(s);
    WithinJustified(s.kind, s.dlpTimeout, b, Finished(at, code, cause), s.history);
  }

  lemma WaitFlagIsExact(s: State)
    requires Reachable(s) && s.kind == Information
    ensures s.waitForFinalStatus <==> SeenProgress(s.kind, s.history)
  {
    ReachableKeeps(s);
  }

  /**
   * The ABORT codes sent are, in order, those of the accepted abort requests; one may still be pending, exactly when
   * a reason is stored.
   */
  lemma AbortsConserved(s: State)
    requires Reachable(s)
    ensures AcceptedCodes(s.history) == SentCodes(s.history) + Pending(s)
    ensures |AcceptedCodes(s.history)| == |SentCodes(s.history)| + if s.abortReason == NoAbort then 0 else 1
  {
    ReachableKeeps(s);
  }

  /** A status request that meets a pending abort is answered with it and starts no transfer. */
  lemma PendingAbortAnswersStatusRequest(s: State, remote: nat)
    requires Reachable(s) && s.abortReason != NoAbort
    ensures var t := StatusFileRequest(s, remote);
            && t.abortReason == NoAbort && t.world == s.world && t.statusTransfers == s.statusTransfers
            && SentCodes(t.history) == AcceptedCodes(t.history) == AcceptedCodes(s.history)
            && t.timer == Some(s.now + s.dlpTimeout)
  {
    ReachableKeeps(s);
    StatusRequestKeeps(s, remote);
  }

  /**
   * The outstanding status transfers are, without repetition, those begun and not yet completed; so a completion
   * finds its transfer, and `finished` never reports one that was not initiated.
   */
  lemma StatusTransfersAccounted(s: State)
    requires Reachable(s)
    ensures Distinct(s.statusTransfers)
    ensures forall id :: id in s.statusTransfers <==> id in StatusesBegun(s.history) && id !in StatusesDone(s.history)
    ensures forall id <- s.world.statuses :: Removed(s.statusTransfers, id) == 1
    ensures forall b, at, code, cause :: Within(Snoc(b, Finished(at, code, cause)), s.history) ==> cause != TransferNotInitiated
  {
    ReachableKeeps(s);
    forall id <- s.world.statuses ensures Removed(s.statusTransfers, id) == 1 {
      RemovedIfDistinct(s.statusTransfers, id);
    }
    forall b, at, code, cause | Within(Snoc(b, Finished(at, code, cause)), s.history) ensures cause != TransferNotInitiated {
      WithinJustified(s.kind, s.dlpTimeout, b, Finished(at, code, cause), s.history);
    }
  }

  /**
   * A DLP timeout is reported no earlier than the larger of exception time and configured timeout after the timer
   * was last triggered, with no call of `finished` in between.
   */
  lemma WatchdogIsPatient(s: State, b: History, at: nat, code: uint16)
    requires Reported(s, b, at, code, DlpTimeout)
    ensures LastArmed(b).Some?
    ensures var (armed, exceptionTime) := LastArmed(b).value;
            at >= armed + exceptionTime && at >= armed + s.dlpTimeout
  {
    ReachableKeeps(s);
    WithinJustified(s.kind, s.dlpTimeout, b, Finished(at, code, DlpTimeout), s.history);
  }

  /**
   * The timer can expire exactly when, since it was last triggered, both the exception time and the configured timeout
   * have passed, with no report in between.
   */
  lemma WatchdogIsDueIff(s: State)
    requires Reachable(s)
    ensures Enabled(s, TimerExpired) <==>
            && LastArmed(s.history).Some?
            && var (armed, exceptionTime) := LastArmed(s.history).value;
               s.now >= armed + exceptionTime && s.now >= armed + s.dlpTimeout
  {
    ReachableKeeps(s);
  }

  /** A request for a well-formed protocol file of another target is answered with an error and does nothing else. */
  lemma ForeignRequestsDoNothing(s: State, remote: nat, request: RequestType, f: F.ProtocolFilename)
    requires F.Compliant(f.targetId) && f.fileType != F.Invalid && f.targetId != s.target
    ensures TftpRequest(s, remote, request, F.PrintFilename(f)) == s.(history := Snoc(s.history, ErrorSent(remote)))
  {
    F.PrintThenParse(f);
  }

  function StatusFileType(kind: Kind): F.FileType {
    match kind
    case Information => F.LoadConfigurationStatus
    case Upload => F.UploadStatus
    case _ => F.DownloadStatus
  }

  /** The media-defined download has no list file. */
  function ListFileType(kind: Kind): F.FileType {
    match kind
    case Information => F.LoadConfigurationList
    case OperatorDefinedDownload => F.OperatorDefinedDownloadList
    case _ => F.Invalid
  }

  /** The same, by name: a well-formed protocol filename is passed on to the handler only if it is one of this target. */
  lemma PassedOnNamesAreOwn(s: State, remote: nat, request: RequestType, filename: string)
    requires F.IsProtocolFilename(filename)
    requires TftpRequest(s, remote, request, filename).history == Snoc(s.history, FileRequested(remote, filename))
    ensures exists fileType :: filename == F.PrintFilename(F.ProtocolFilename(s.target, fileType))
  {
    hide F.IsProtocolFilename, F.PrintFilename, F.ParseFilename, StatusFileRequest, ListFileRequest;
    F.ParseThenPrint(filename);
    var f := F.ParseFilename(filename);
    assert f == F.ProtocolFilename(f.targetId, f.fileType);
  }

  /**
   * It starts a transfer only if it is the name of the target's status file, with no abort pending, or of its list
   * file.
   */
  lemma TransfersStartByName(s: State, remote: nat, request: RequestType, filename: string)
    requires F.IsProtocolFilename(filename) && TftpRequest(s, remote, request, filename).world != s.world
    ensures var w := TftpRequest(s, remote, request, filename).world;
            || (w == s.world.(statuses := s.world.statuses + {s.nextId}) && s.abortReason == NoAbort
                && filename == F.PrintFilename(F.ProtocolFilename(s.target, StatusFileType(s.kind))))
            || (w == s.world.(lists := s.world.lists + {s.nextId})
                && filename == F.PrintFilename(F.ProtocolFilename(s.target, ListFileType(s.kind))))
  {
    hide F.IsProtocolFilename, F.PrintFilename, F.ParseFilename, StatusFileRequest, ListFileRequest;
    RequestFrame(s, remote);
    RequestFrame(Log(s, ErrorSent(remote)), remote);
    F.ParseThenPrint(filename);
    var f := F.ParseFilename(filename);
    assert f == F.ProtocolFilename(f.targetId, f.fileType);
  }

  lemma RequestFrame(s: State, remote: nat)
    ensures var t := StatusFileRequest(s, remote);
            t.world == if s.abortReason == NoAbort then s.world.(statuses := s.world.statuses + {s.nextId}) else s.world
    ensures ListFileRequest(s).world == s.world.(lists := s.world.lists + {s.nextId})
  {
  }

  /**
   * Only well-formed names are checked: a malformed one starts a status transfer exactly when what follows its first
   * dot is the extension of the status file, no abort is pending, and it is a write request, unless the operation is
   * an information operation.
   */
  lemma MalformedNamesPass(s: State, remote: nat, request: RequestType, filename: string)
    requires Reachable(s) && !F.IsProtocolFilename(filename)
    ensures TftpRequest(s, remote, request, filename).world.statuses != s.world.statuses <==>
            && s.abortReason == NoAbort && (s.kind == Information || request == Write)
            && F.Split(filename, '.').1 == F.Extension(StatusFileType(s.kind))
  {
    hide F.IsProtocolFilename, F.Split, F.ParseTargetId, F.Extension, F.FileTypeOf, StatusFileRequest, ListFileRequest,
         Reachable, Inv, Watched;
    RequestFrame(s, remote);
    RequestFrame(Log(s, ErrorSent(remote)), remote);
    ReachableKeeps(s);
    FreshId(s);
    var extension := F.Split(filename, '.').1;
    F.Extensions(StatusFileType(s.kind));
    if F.FileTypeOf(extension) != F.Invalid {
      F.ValidExtension(extension);
    }
  }

  lemma FreshId(s: State)
    requires Inv(s)
    ensures s.nextId !in s.world.statuses
  {
  }

  lemma MalformedNamesExist()
    ensures !F.IsProtocolFilename("X.LUS") && F.Split("X.LUS", '.').1 == "LUS"
  {
    assert F.Find("X.LUS", '.') == 1 by {
      assert "X.LUS"[1..] == ".LUS";
    }
    assert "X.LUS"[..1] == "X" && F.Find("X", '_') == 1;
  }
}
