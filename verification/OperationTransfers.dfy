/** Which of its transfers an operation remembers, and what becomes of the others. */
module OperationTransfers {
  import opened Bytes
  import opened Grammar
  import opened Files
  import opened OperationState
  import opened OperationSafety
  import opened OperationTally
  import F = Filenames

  /** The transfer of this role that was begun last, unless one of this role, whichever, has come back since. */
  function Open(role: Role, h: History): Option<Id> {
    match h
    case Empty => None
    case Snoc(b, n) =>
      if n.TransferBegun? && n.role == role then Some(n.id)
      else if n.TransferDone? && n.role == role then None
      else Open(role, b)
  }

  predicate Remembers(s: State) {
    && s.initialisation == Open(InitialisationTransfer, s.history)
    && s.listTransfer == Open(ListTransfer, s.history)
    && s.clientTransfer == Open(ClientTransfer, s.history)
  }

  function Outstanding(w: World): set<Id> {
    w.initialisations + w.statuses + w.lists + w.clients
  }

  /** No ID stands for two transfers. */
  predicate Separate(s: State) {
    var w := s.world;
    && (forall id <- w.initialisations :: id < s.nextId && id !in w.statuses && id !in w.lists && id !in w.clients)
    && (forall id <- w.statuses :: id < s.nextId && id !in w.lists && id !in w.clients)
    && (forall id <- w.lists :: id < s.nextId && id !in w.clients)
    && (forall id <- w.clients :: id < s.nextId)
    && (s.initialisation.Some? ==>
          var id := s.initialisation.value;
          id < s.nextId && id !in w.statuses && id !in w.lists && id !in w.clients)
  }

  predicate Tracked(s: State) {
    Remembers(s) && Separate(s)
  }

  // ---- Most pieces of a step neither begin nor end a transfer ---------------------------------------------------------------

  predicate Untouched(s: State, t: State) {
    && t.kind == s.kind && t.world == s.world && t.nextId == s.nextId
    && t.initialisation == s.initialisation && t.listTransfer == s.listTransfer && t.clientTransfer == s.clientTransfer
    && Open(InitialisationTransfer, t.history) == Open(InitialisationTransfer, s.history)
    && Open(ListTransfer, t.history) == Open(ListTransfer, s.history)
    && Open(ClientTransfer, t.history) == Open(ClientTransfer, s.history)
  }

  lemma UntouchedIsTracked(s: State, t: State)
    requires Tracked(s) && Untouched(s, t)
    ensures Tracked(t)
  {
  }

  lemma EndUntouched(s: State, code: uint16, cause: Cause, exceptionTime: nat)
    ensures Untouched(s, Finish(s, code, cause)) && Untouched(s, TriggerDlpTimeout(s, exceptionTime))
  {
  }

  lemma AbortUntouched(s: State, reason: AbortReason)
    ensures Untouched(s, DoAbort(s, reason))
  {
    hide CancelInitialisation;
    CancelUntouched(s);
    CancelUntouched(Log(s, AbortAccepted(reason)).(abortReason := reason));
  }

  lemma CancelUntouched(s: State)
    ensures Untouched(s, CancelInitialisation(s))
  {
  }

  lemma TerminateUntouched(s: State, reason: AbortReason)
    ensures Untouched(s, DoTerminate(s, reason))
  {
    hide CancelInitialisation, Finish;
    CancelUntouched(s);
    EndUntouched(CancelInitialisation(s), CodeOf(reason), TerminateRequest, 0);
  }

  lemma LogUntouched(s: State, n: Note)
    requires !n.TransferBegun? && !n.TransferDone?
    ensures Untouched(s, Log(s, n))
  {
  }

  lemma AnswerUntouched(s: State, threw: bool, file: seq<byte>)
    requires DecodeFile(INIT, file).Some?
    ensures Untouched(s, TakeInitialisation(s, threw, file))
  {
    hide DecodeFile, AcceptanceCode, Finish, TriggerDlpTimeout;
    var s1 := Log(s, InitialisationTaken(file)).(version := DecodeFile(INIT, file).value.version);
    assert Untouched(s, s1);
    EndUntouched(s1, 0, InitialisationFailed, 0);
    EndUntouched(s, OPERATION_ABORTED_BY_DLP, InitialisationFailed, 0);
    EndUntouched(s, OPERATION_ABORTED_BY_DLP, UnknownAcceptance, 0);
    EndUntouched(s, AcceptanceCode(file), TargetAnswer, 0);
  }

  lemma StatusUntouched(s: State, status: StatusInfo, file: seq<byte>)
    ensures Untouched(s, TakeStatus(s, status, file))
  {
    hide Finish, TriggerDlpTimeout;
    var s1 := Log(s, StatusTaken(file));
    var s2 := s1.(waitForFinalStatus := true);
    EndUntouched(s1, status.code, TargetStatus, 0);
    EndUntouched(s1, OPERATION_ABORTED_BY_DLP, UnknownStatus, status.exceptionTimer);
    EndUntouched(s2, OPERATION_ABORTED_BY_DLP, UnknownStatus, status.exceptionTimer);
    EndUntouched(s2, OPERATION_ABORTED_BY_DLP, UnknownStatus, 0);
  }

  lemma ListUntouched(s: State, file: seq<byte>)
    ensures Untouched(s, ListFailed(s)) && Untouched(s, TakeList(s, file))
  {
    hide Finish, TriggerDlpTimeout, DoAbort;
    AbortUntouched(s, Protocol);
    LogUntouched(s, ListTaken(file));
    EndUntouched(s, OPERATION_ABORTED_BY_DLP, InvalidList, 0);
    EndUntouched(Log(s, ListTaken(file)), OPERATION_COMPLETED, ListReceived, 0);
  }

  // ---- Beginnings and ends ------------------------------------------------------------------------------------------------------

  lemma BeginTracked(s: State, file: seq<byte>)
    requires Tracked(s)
    ensures Tracked(Begin(s, InitialisationTransfer, file).(initialisation := Some(s.nextId)))
    ensures Tracked(Begin(s, ListTransfer, file).(listTransfer := Some(s.nextId)))
    ensures Tracked(Begin(s, ClientTransfer, file).(clientTransfer := Some(s.nextId)))
  {
    hide Separate;
    BeginSeparate(s, file);
  }

  lemma BeginSeparate(s: State, file: seq<byte>)
    requires Separate(s)
    ensures Separate(Begin(s, InitialisationTransfer, file).(initialisation := Some(s.nextId)))
    ensures Separate(Begin(s, ListTransfer, file).(listTransfer := Some(s.nextId)))
    ensures Separate(Begin(s, ClientTransfer, file).(clientTransfer := Some(s.nextId)))
  {
  }

  lemma StatusBeginTracked(s: State, ids: seq<Id>)
    requires Tracked(s)
    ensures Tracked(Begin(s, StatusTransfer, []).(statusTransfers := ids))
  {
  }

  lemma OverTracked(s: State, id: Id)
    requires Tracked(s)
    ensures Tracked(InitialisationOver(s, id)) && Tracked(StatusOver(s, id))
    ensures Tracked(ListOver(s, id)) && Tracked(ClientOver(s, id))
  {
    hide Without;
  }

  lemma CallTracked(s: State, call: Call)
    requires Tracked(s)
    ensures Tracked(DoCall(s, call))
  {
    hide FileOf, DoAbort, DoTerminate, Begin, Tracked;
    match call {
      case Abort(reason) =>
        AbortUntouched(s, reason);
        UntouchedIsTracked(s, DoAbort(s, reason));
      case Terminate(reason) =>
        TerminateUntouched(s, reason);
        UntouchedIsTracked(s, DoTerminate(s, reason));
      case Submit(p) =>
        if FileOf(s.version, p).Some? {
          BeginTracked(s, FileOf(s.version, p).value);
        }
    }
  }

  lemma {:induction false} ReactTracked(s: State, calls: seq<Call>)
    requires Tracked(s)
    ensures Tracked(React(s, calls))
    decreases |calls|
  {
    hide DoCall, Tracked, Throws;
    if calls != [] && !Throws(s, calls[0]) {
      CallTracked(s, calls[0]);
      ReactTracked(DoCall(s, calls[0]), calls[1..]);
    }
  }

  lemma StartTracked(s: State)
    requires Tracked(s)
    ensures Tracked(Start(s))
  {
    hide Tracked, Begin;
    var s1 := Log(s, RunBegun).(
      waitForFinalStatus := if s.kind.Information? then false else s.waitForFinalStatus,
      sent := if s.kind.Information? then s.sent else false,
      serverUp := true);
    assert Untouched(s, s1);
    UntouchedIsTracked(s, s1);
    BeginTracked(s1, []);
  }

  lemma InitialisationTracked(s: State, id: Id, ok: bool, file: seq<byte>, calls: seq<Call>)
    requires Tracked(s)
    ensures Tracked(InitialisationCompleted(s, id, ok, file, calls))
  {
    hide DecodeFile, React, ReactionThrows, TakeInitialisation, InitialisationOver, Finish, Tracked, Untouched;
    var s0 := InitialisationOver(s, id);
    OverTracked(s, id);
    if !ok || DecodeFile(INIT, file) == None {
      EndUntouched(s0, OPERATION_ABORTED_BY_DLP, InitialisationFailed, 0);
      UntouchedIsTracked(s0, Finish(s0, OPERATION_ABORTED_BY_DLP, InitialisationFailed));
    } else {
      ReactTracked(s0, calls);
      AnswerUntouched(React(s0, calls), ReactionThrows(s0, calls), file);
      UntouchedIsTracked(React(s0, calls), TakeInitialisation(React(s0, calls), ReactionThrows(s0, calls), file));
    }
  }

  lemma StatusReceivedTracked(s: State, ok: bool, file: seq<byte>, calls: seq<Call>)
    requires Tracked(s)
    ensures Tracked(StatusReceived(s, ok, file, calls))
  {
    hide ReadStatus, DecodeFile, KnownStatus, React, ReactionThrows, TakeStatus, Finish, Tracked, Untouched;
    EndUntouched(s, OPERATION_ABORTED_BY_DLP, StatusTransferFailed, 0);
    if !ok {
      UntouchedIsTracked(s, Finish(s, OPERATION_ABORTED_BY_DLP, StatusTransferFailed));
    } else if ReadStatus(s.kind, file).Some? {
      ReactTracked(s, calls);
      StatusUntouched(React(s, calls), ReadStatus(s.kind, file).value, file);
      UntouchedIsTracked(React(s, calls), TakeStatus(React(s, calls), ReadStatus(s.kind, file).value, file));
    }
  }

  lemma StatusTracked(s: State, id: Id, ok: bool, file: seq<byte>, calls: seq<Call>)
    requires Tracked(s)
    ensures Tracked(StatusFileCompleted(s, id, ok, file, calls))
  {
    hide StatusReceived, StatusOver, Removed, Finish, Tracked, Untouched;
    var s0 := StatusOver(s, id);
    var s1 := Finish(s0, OPERATION_ABORTED_BY_DLP, TransferNotInitiated);
    OverTracked(s, id);
    EndUntouched(s0, OPERATION_ABORTED_BY_DLP, TransferNotInitiated, 0);
    UntouchedIsTracked(s0, s1);
    StatusReceivedTracked(s0, ok, file, calls);
    StatusReceivedTracked(s1, ok, file, calls);
  }

  lemma ListTracked(s: State, id: Id, ok: bool, file: seq<byte>, calls: seq<Call>)
    requires Tracked(s)
    ensures Tracked(ListFileCompleted(s, id, ok, file, calls))
  {
    hide DecodeFile, React, ReactionThrows, ListFailed, TakeList, ListOver, Tracked, Untouched;
    var s0 := ListOver(s, id);
    var r := React(s0, calls);
    OverTracked(s, id);
    ReactTracked(s0, calls);
    ListUntouched(s0, file);
    ListUntouched(r, file);
    UntouchedIsTracked(s0, ListFailed(s0));
    UntouchedIsTracked(r, ListFailed(r));
    UntouchedIsTracked(r, TakeList(r, file));
  }

  lemma ClientTracked(s: State, id: Id, ok: bool)
    requires Tracked(s)
    ensures Tracked(ClientTransferCompleted(s, id, ok))
  {
    hide ClientOver, DoAbort, Tracked;
    var s0 := ClientOver(s, id);
    OverTracked(s, id);
    AbortUntouched(s0, Protocol);
    UntouchedIsTracked(s0, DoAbort(s0, Protocol));
    UntouchedIsTracked(s0, s0.(sent := true));
  }

  lemma ListRequestTracked(s: State)
    requires Tracked(s)
    ensures Tracked(ListFileRequest(s))
  {
    hide Begin, Tracked, Log;
    if s.listTransfer.Some? {
      LogUntouched(s, TransferCancelled(s.listTransfer.value));
      UntouchedIsTracked(s, Log(s, TransferCancelled(s.listTransfer.value)));
      BeginTracked(Log(s, TransferCancelled(s.listTransfer.value)), []);
    } else {
      BeginTracked(s, []);
    }
  }

  lemma StatusRequestTracked(s: State, remote: nat)
    requires Tracked(s)
    ensures Tracked(StatusFileRequest(s, remote))
  {
    hide Begin, Tracked, TriggerDlpTimeout;
    if s.abortReason == NoAbort {
      StatusBeginTracked(s, [s.nextId] + s.statusTransfers);
    } else {
      var s1 := Log(s, AbortSent(remote, CodeOf(s.abortReason))).(abortReason := NoAbort);
      assert Untouched(s, s1);
      EndUntouched(s1, 0, TimerError, 0);
      UntouchedIsTracked(s, TriggerDlpTimeout(s1, 0));
    }
  }

  lemma RequestTracked(s: State, remote: nat, request: RequestType, filename: string)
    requires Tracked(s)
    ensures Tracked(TftpRequest(s, remote, request, filename))
  {
    hide Tracked, Untouched, Foreign, F.ParseFilename, StatusFileRequest, ListFileRequest, Log;
    var s1 := Log(s, ErrorSent(remote));
    LogUntouched(s, ErrorSent(remote));
    UntouchedIsTracked(s, s1);
    LogUntouched(s1, ErrorSent(remote));
    UntouchedIsTracked(s1, Log(s1, ErrorSent(remote)));
    LogUntouched(s, FileRequested(remote, filename));
    UntouchedIsTracked(s, Log(s, FileRequested(remote, filename)));
    StatusRequestTracked(s, remote);
    StatusRequestTracked(s1, remote);
    ListRequestTracked(s);
    ListRequestTracked(s1);
  }

  lemma TimerTracked(s: State, error: bool)
    requires Tracked(s)
    ensures Tracked(TimerHandler(s, error))
  {
    hide Finish;
    EndUntouched(s.(timer := None), OPERATION_ABORTED_BY_DLP, if error then TimerError else DlpTimeout, 0);
    UntouchedIsTracked(s, TimerHandler(s, error));
  }

  lemma StepTracked(s: State, e: Event)
    requires Tracked(s)
    ensures Tracked(Step(s, e))
  {
    hide Tracked, Start, DoCall, TftpRequest, InitialisationCompleted, StatusFileCompleted, ListFileCompleted,
         ClientTransferCompleted, TimerHandler;
    match e {
      case StartRequested => StartTracked(s);
      case Called(call) => CallTracked(s, call);
      case Requested(remote, request, filename) => RequestTracked(s, remote, request, filename);
      case InitialisationDone(id, ok, file, calls) => InitialisationTracked(s, id, ok, file, calls);
      case StatusDone(id, ok, file, calls) => StatusTracked(s, id, ok, file, calls);
      case ListDone(id, ok, file, calls) => ListTracked(s, id, ok, file, calls);
      case ClientDone(id, ok) => ClientTracked(s, id, ok);
      case TimerExpired => TimerTracked(s, false);
      case TimerFailed => TimerTracked(s, true);
      case TimePassed(seconds) => UntouchedIsTracked(s, Step(s, e));
    }
  }

  lemma {:induction false} RunTracked(s: State, es: seq<Event>)
    requires Tracked(s)
    ensures Tracked(After(s, es))
    decreases |es|
  {
    hide Tracked, Step;
    if es != [] {
      StepTracked(s, es[0]);
      RunTracked(Step(s, es[0]), es[1..]);
    }
  }

  /** In every run the operation remembers exactly the transfers that `Open` names, and no ID stands for two transfers. */
  lemma ReachableTracked(s: State)
    requires Reachable(s)
    ensures Tracked(s)
  {
    hide Tracked, After, Possible;
    var kind, target, dlpTimeout, es :|
      Possible(Initial(kind, target, dlpTimeout), es) && s == After(Initial(kind, target, dlpTimeout), es);
    assert Tracked(Initial(kind, target, dlpTimeout)) by { InitialTracked(kind, target, dlpTimeout); }
    RunTracked(Initial(kind, target, dlpTimeout), es);
  }

  lemma InitialTracked(kind: Kind, target: F.TargetId, dlpTimeout: nat)
    ensures Tracked(Initial(kind, target, dlpTimeout))
  {
  }

  // ---- List requests ----------------------------------------------------------------------------------------------------------------

  /** The notes that were added to `b`. */
  function NotesSince(h: History, b: History): seq<Note> {
    if h == b || h.Empty? then [] else NotesSince(h.before, b) + [h.last]
  }

  function NewestList(h: History): Option<Id> {
    match h
    case Empty => None
    case Snoc(b, n) => if n.TransferBegun? && n.role == ListTransfer then Some(n.id) else NewestList(b)
  }

  /** Some list transfer has come back since the newest one was begun. */
  predicate ListDoneSince(h: History) {
    match h
    case Empty => false
    case Snoc(b, n) =>
      if n.TransferBegun? && n.role == ListTransfer then false
      else (n.TransferDone? && n.role == ListTransfer) || ListDoneSince(b)
  }

  lemma {:induction false} OpenListMeans(h: History)
    ensures Open(ListTransfer, h) == if ListDoneSince(h) then None else NewestList(h)
  {
    if h.Snoc? {
      OpenListMeans(h.before);
    }
  }

  /**
   * A list request cancels the newest list transfer if and only if none has come back since that one was begun;
   * it cancels nothing else.
   */
  lemma ListRequestCancelsIff(s: State, id: Id)
    requires Reachable(s) && NewestList(s.history) == Some(id)
    ensures var notes := NotesSince(ListFileRequest(s).history, s.history);
            && (TransferCancelled(id) in notes <==> !ListDoneSince(s.history))
            && (forall other :: TransferCancelled(other) in notes ==> other == id)
  {
    hide Open, NewestList, ListDoneSince;
    ReachableTracked(s);
    OpenListMeans(s.history);
    var begun := TransferBegun(s.nextId, ListTransfer, []);
    if s.listTransfer.Some? {
      var cancelled := TransferCancelled(s.listTransfer.value);
      TwoNotes(s.history, cancelled, begun);
    } else {
      OneNote(s.history, begun);
    }
  }

  function Size(h: History): nat {
    if h.Empty? then 0 else 1 + Size(h.before)
  }

  lemma OneNote(h: History, n: Note)
    ensures NotesSince(Snoc(h, n), h) == [n]
  {
    assert Size(Snoc(h, n)) != Size(h);
    assert NotesSince(h, h) == [];
  }

  lemma TwoNotes(h: History, n: Note, m: Note)
    ensures NotesSince(Snoc(Snoc(h, n), m), h) == [n, m]
  {
    OneNote(h, n);
    assert Size(Snoc(Snoc(h, n), m)) != Size(h);
  }

  lemma EndKeepsLists(s: State, code: uint16, cause: Cause, file: seq<byte>)
    ensures forall h <- [Finish(s, code, cause).history, TriggerDlpTimeout(s, 0).history, Log(s, ListTaken(file)).history] ::
              NewestList(h) == NewestList(s.history) && ListDoneSince(h) == ListDoneSince(s.history)
  {
  }

  lemma ListEndKeepsLists(s: State, file: seq<byte>)
    ensures forall h <- [ListFailed(s).history, TakeList(s, file).history] ::
              NewestList(h) == NewestList(s.history) && ListDoneSince(h) == ListDoneSince(s.history)
  {
    hide Finish, TriggerDlpTimeout, DoAbort, NewestList, ListDoneSince, Log;
    AbortKeepsLists(s, Protocol);
    EndKeepsLists(s, OPERATION_ABORTED_BY_DLP, InvalidList, file);
    EndKeepsLists(Log(s, ListTaken(file)), OPERATION_COMPLETED, ListReceived, file);
  }

  /**
   * When an older list transfer comes back, the newest one goes on, and the operation forgets it: the next list
   * request does not cancel it.
   */
  lemma OlderListHidesTheNewer(s: State, id: Id, newer: Id, ok: bool, file: seq<byte>)
    requires Reachable(s) && id in s.world.lists && newer in s.world.lists && id != newer
    requires NewestList(s.history) == Some(newer)
    ensures var t := ListFileCompleted(s, id, ok, file, []);
            && newer in t.world.lists && NewestList(t.history) == Some(newer) && ListDoneSince(t.history)
            && TransferCancelled(newer) !in NotesSince(ListFileRequest(t).history, t.history)
  {
    hide DecodeFile, ListFailed, TakeList, ListFileRequest, NotesSince, Reachable;
    var s0 := ListOver(s, id);
    var t := ListFileCompleted(s, id, ok, file, []);
    assert newer in s0.world.lists && NewestList(s0.history) == Some(newer) && ListDoneSince(s0.history);
    ListUntouched(s0, file);
    ListEndKeepsLists(s0, file);
    assert React(s0, []) == s0 && !ReactionThrows(s0, []);
    ReachableStep(s, ListDone(id, ok, file, []));
    ListRequestCancelsIff(t, newer);
  }

  // ---- Terminations -----------------------------------------------------------------------------------------------------------------

  /** The transfer is the remembered initialisation. */
  predicate IsInitialisation(s: State, id: Id) {
    s.initialisation == Some(id)
  }

  /**
   * `terminate` cancels the remembered initialisation and nothing else, and forgets nothing; so every outstanding
   * transfer is cancelled if and only if there are no status, list or client transfers and no older initialisations.
   */
  lemma TerminateCancelsIff(s: State, reason: AbortReason)
    requires Reachable(s)
    ensures var t := DoTerminate(s, reason);
            var notes := NotesSince(t.history, s.history);
            && t.world == s.world && t.statusTransfers == s.statusTransfers
            && t.initialisation == s.initialisation && t.listTransfer == s.listTransfer
            && t.clientTransfer == s.clientTransfer
            && (forall id :: TransferCancelled(id) in notes <==> IsInitialisation(s, id))
            && ((forall id <- Outstanding(s.world) :: TransferCancelled(id) in notes) <==>
                && s.world.statuses == {} && s.world.lists == {} && s.world.clients == {}
                && forall id <- s.world.initialisations :: IsInitialisation(s, id))
  {
    hide Remembers;
    ReachableTracked(s);
    var finished := Finished(s.now, CodeOf(reason), TerminateRequest);
    if s.initialisation.Some? {
      TwoNotes(s.history, TransferCancelled(s.initialisation.value), finished);
    } else {
      OneNote(s.history, finished);
    }
    SeparateMeans(s);
  }

  lemma SeparateMeans(s: State)
    requires Separate(s)
    ensures (forall id <- Outstanding(s.world) :: IsInitialisation(s, id)) <==>
            && s.world.statuses == {} && s.world.lists == {} && s.world.clients == {}
            && forall id <- s.world.initialisations :: IsInitialisation(s, id)
  {
    if forall id <- Outstanding(s.world) :: IsInitialisation(s, id) {
      assert forall id <- s.world.statuses :: id in Outstanding(s.world);
      assert forall id <- s.world.lists :: id in Outstanding(s.world);
      assert forall id <- s.world.clients :: id in Outstanding(s.world);
      assert s.world.statuses == {} && s.world.lists == {} && s.world.clients == {};
    }
  }

  // ---- Runs that show it ------------------------------------------------------------------------------------------------------------

  function OwnName(s: State, fileType: F.FileType): string {
    F.PrintFilename(F.ProtocolFilename(s.target, fileType))
  }

  lemma OwnNamesAreAccepted(s: State, remote: nat)
    requires F.Compliant(s.target)
    ensures TftpRequest(s, remote, Write, OwnName(s, StatusFileType(s.kind))) == StatusFileRequest(s, remote)
    ensures s.kind == OperatorDefinedDownload ==>
              TftpRequest(s, remote, Write, OwnName(s, F.OperatorDefinedDownloadList)) == ListFileRequest(s)
  {
    hide F.PrintFilename, F.IsProtocolFilename, F.ParseFilename, StatusFileRequest, ListFileRequest;
    F.PrintThenParse(F.ProtocolFilename(s.target, StatusFileType(s.kind)));
    F.PrintThenParse(F.ProtocolFilename(s.target, F.OperatorDefinedDownloadList));
  }

  lemma {:induction false} AndThen(s: State, es: seq<Event>, e: Event)
    requires Possible(s, es) && Enabled(After(s, es), e)
    ensures Possible(s, es + [e]) && After(s, es + [e]) == Step(After(s, es), e)
    decreases |es|
  {
    hide Step, Enabled;
    if es == [] {
      assert [e][1..] == [] && es + [e] == [e];
      assert Possible(Step(s, e), []) && After(Step(s, e), []) == Step(s, e);
    } else {
      assert (es + [e])[0] == es[0] && (es + [e])[1..] == es[1..] + [e];
      AndThen(Step(s, es[0]), es[1..], e);
    }
  }

  lemma StartStep(s: State)
    ensures Possible(s, [StartRequested]) && After(s, [StartRequested]) == Start(s)
    ensures Start(s).target == s.target && Start(s).kind == s.kind && Start(s).serverUp
    ensures Start(s).abortReason == s.abortReason && Start(s).nextId == s.nextId + 1
    ensures Start(s).world.statuses == s.world.statuses && Start(s).world.lists == s.world.lists
    ensures Start(s).listTransfer == s.listTransfer && Start(s).statusTransfers == s.statusTransfers
    ensures Start(s).now == s.now && Start(s).initialisation == Some(s.nextId)
  {
    assert [StartRequested][1..] == [];
    assert Possible(Start(s), []) && After(Start(s), []) == Start(s);
  }

  lemma ListRequestStep(s: State, remote: nat)
    requires F.Compliant(s.target) && s.kind == OperatorDefinedDownload && s.serverUp
    ensures var e := Requested(remote, Write, OwnName(s, F.OperatorDefinedDownloadList));
            Enabled(s, e) && Step(s, e) == ListFileRequest(s)
    ensures var t := ListFileRequest(s);
            && t.target == s.target && t.kind == s.kind && t.serverUp && t.nextId == s.nextId + 1
            && t.world.lists == s.world.lists + {s.nextId} && t.listTransfer == Some(s.nextId)
            && NewestList(t.history) == Some(s.nextId)
  {
    hide OwnName, TftpRequest;
    OwnNamesAreAccepted(s, remote);
  }

  lemma StatusRequestStep(s: State, remote: nat)
    requires F.Compliant(s.target) && s.serverUp && s.abortReason == NoAbort
    ensures var e := Requested(remote, Write, OwnName(s, StatusFileType(s.kind)));
            Enabled(s, e) && Step(s, e) == StatusFileRequest(s, remote)
    ensures var t := StatusFileRequest(s, remote);
            && t.target == s.target && t.kind == s.kind && t.serverUp && t.nextId == s.nextId + 1
            && t.abortReason == NoAbort && t.now == s.now && t.initialisation == s.initialisation
            && t.world.statuses == s.world.statuses + {s.nextId} && t.statusTransfers == [s.nextId] + s.statusTransfers
  {
    hide OwnName, TftpRequest;
    OwnNamesAreAccepted(s, remote);
  }

  lemma AbortKeepsLists(s: State, reason: AbortReason)
    ensures var h := DoAbort(s, reason).history;
            NewestList(h) == NewestList(s.history) && ListDoneSince(h) == ListDoneSince(s.history)
  {
  }

  lemma ListDoneStep(s: State, id: Id)
    requires id in s.world.lists && s.kind == OperatorDefinedDownload
    ensures var e := ListDone(id, false, [], []);
            && Enabled(s, e)
            && var t := Step(s, e);
               && t.serverUp == s.serverUp && t.world.lists == s.world.lists - {id} && t.listTransfer == None
               && NewestList(t.history) == NewestList(s.history) && ListDoneSince(t.history)
  {
    hide DecodeFile, DoAbort;
    AbortKeepsLists(ListOver(s, id), Protocol);
    AbortUntouched(ListOver(s, id), Protocol);
    AbortDown(ListOver(s, id), Protocol);
  }

  lemma AbortDown(s: State, reason: AbortReason)
    ensures DoAbort(s, reason).serverUp == s.serverUp
  {
  }

  /** The newest list transfer, number 2, is outstanding, and the next list request does not cancel it. */
  ghost predicate HasForgottenList(s: State) {
    && s.serverUp && 2 in s.world.lists && s.listTransfer == None
    && NewestList(s.history) == Some(2) && ListDoneSince(s.history)
    && TransferCancelled(2) !in NotesSince(ListFileRequest(s).history, s.history)
  }

  /**
   * Start, two list requests, and the first transfer comes back: the second is outstanding, the server takes
   * requests, and the operation has forgotten it.
   */
  lemma AListIsForgotten(s: State, remote: nat, es: seq<Event>)
    requires s == Initial(OperatorDefinedDownload, s.target, s.dlpTimeout) && F.Compliant(s.target)
    requires |es| == 4 && es[0] == StartRequested && es[3] == ListDone(1, false, [], [])
    requires es[1] == es[2] == Requested(remote, Write, OwnName(s, F.OperatorDefinedDownloadList))
    ensures Possible(s, es) && HasForgottenList(After(s, es))
  {
    hide Step, Enabled, After, Possible, OwnName, Start, ListFileRequest, NewestList, ListDoneSince, Reachable, NotesSince;
    var request, done := es[1], es[3];
    StartStep(s);
    SameName(s, Start(s), F.OperatorDefinedDownloadList);
    ListRequestStep(Start(s), remote);
    AndThen(s, [StartRequested], request);
    var s2 := ListFileRequest(Start(s));
    SameName(s, s2, F.OperatorDefinedDownloadList);
    ListRequestStep(s2, remote);
    AndThen(s, [StartRequested] + [request], request);
    ListDoneStep(ListFileRequest(s2), 1);
    AndThen(s, [StartRequested] + [request] + [request], done);
    assert es == [StartRequested] + [request] + [request] + [done];
    RunIsReachable(s.kind, s.target, s.dlpTimeout, es);
    ListRequestCancelsIff(Step(ListFileRequest(s2), done), 2);
  }

  lemma SameName(s: State, t: State, fileType: F.FileType)
    requires s.target == t.target
    ensures OwnName(s, fileType) == OwnName(t, fileType)
  {
  }

  lemma TerminateStep(s: State, reason: AbortReason)
    ensures Enabled(s, Called(Terminate(reason))) && Step(s, Called(Terminate(reason))) == DoTerminate(s, reason)
    ensures var t := DoTerminate(s, reason); !t.serverUp && t.world == s.world
  {
  }

  /** Start, a status request, and `terminate`: the status transfer is not cancelled. */
  lemma AStatusSurvivesTermination(kind: Kind, target: F.TargetId, dlpTimeout: nat, remote: nat, reason: AbortReason)
    requires F.Compliant(target)
    ensures var s := Initial(kind, target, dlpTimeout);
            var es := [StartRequested, Requested(remote, Write, OwnName(s, StatusFileType(kind)))];
            && Possible(s, es + [Called(Terminate(reason))])
            && var b, t := After(s, es), After(s, es + [Called(Terminate(reason))]);
               !t.serverUp && t.world.statuses == {1} && TransferCancelled(1) !in NotesSince(t.history, b.history)
  {
    hide Step, Enabled, After, Possible, OwnName, Start, StatusFileRequest, DoTerminate, Reachable, NotesSince;
    var s := Initial(kind, target, dlpTimeout);
    var request := Requested(remote, Write, OwnName(s, StatusFileType(kind)));
    StartStep(s);
    SameName(s, Start(s), StatusFileType(kind));
    StatusRequestStep(Start(s), remote);
    AndThen(s, [StartRequested], request);
    var s2 := StatusFileRequest(Start(s), remote);
    TerminateStep(s2, reason);
    AndThen(s, [StartRequested] + [request], Called(Terminate(reason)));
    assert [StartRequested] + [request] == [StartRequested, request];
    RunIsReachable(kind, target, dlpTimeout, [StartRequested, request]);
    TerminateCancelsIff(s2, reason);
  }

  lemma ReachableStep(s: State, e: Event)
    requires Reachable(s) && Enabled(s, e)
    ensures Reachable(Step(s, e))
  {
    hide Step, Enabled, Possible, After;
    var kind, target, dlpTimeout, es :|
      Possible(Initial(kind, target, dlpTimeout), es) && s == After(Initial(kind, target, dlpTimeout), es);
    AndThen(Initial(kind, target, dlpTimeout), es, e);
  }

  lemma RunIsReachable(kind: Kind, target: F.TargetId, dlpTimeout: nat, es: seq<Event>)
    requires Possible(Initial(kind, target, dlpTimeout), es)
    ensures Reachable(After(Initial(kind, target, dlpTimeout), es))
  {
    hide Possible, After;
  }

  lemma StatusFailedStep(s: State, id: Id)
    requires id in s.world.statuses && Removed(s.statusTransfers, id) == 1
    ensures var e := StatusDone(id, false, [], []);
            && Enabled(s, e)
            && var t := Step(s, e);
               && t.now == s.now && t.world.statuses == s.world.statuses - {id}
               && t.statusTransfers == Without(s.statusTransfers, id)
               && t.history == Snoc(Snoc(s.history, TransferDone(id, StatusTransfer)),
                                    Finished(s.now, OPERATION_ABORTED_BY_DLP, StatusTransferFailed))
  {
    hide ReadStatus, DecodeFile, Removed, Without;
  }

  /** An upload whose two status transfers fail reports twice that it did not complete, and nobody has terminated it. */
  lemma TwoFailuresReportTwice(target: F.TargetId, dlpTimeout: nat, remote: nat)
    requires F.Compliant(target)
    ensures var s := Initial(Upload, target, dlpTimeout);
            var request := Requested(remote, Write, OwnName(s, F.UploadStatus));
            var es := [StartRequested, request, request];
            var fs := es + [StatusDone(1, false, [], [])];
            var gs := fs + [StatusDone(2, false, [], [])];
            var report := Finished(0, OPERATION_ABORTED_BY_DLP, StatusTransferFailed);
            && Possible(s, gs)
            && After(s, fs).history == Snoc(Snoc(After(s, es).history, TransferDone(1, StatusTransfer)), report)
            && After(s, gs).history == Snoc(Snoc(After(s, fs).history, TransferDone(2, StatusTransfer)), report)
  {
    hide Step, Enabled, After, Possible, OwnName, Start, StatusFileRequest;
    var s := Initial(Upload, target, dlpTimeout);
    var request := Requested(remote, Write, OwnName(s, F.UploadStatus));
    StartStep(s);
    SameName(s, Start(s), F.UploadStatus);
    StatusRequestStep(Start(s), remote);
    AndThen(s, [StartRequested], request);
    var s2 := StatusFileRequest(Start(s), remote);
    SameName(s, s2, F.UploadStatus);
    StatusRequestStep(s2, remote);
    AndThen(s, [StartRequested] + [request], request);
    var s3 := StatusFileRequest(s2, remote);
    var es := [StartRequested, request, request];
    assert [StartRequested] + [request] + [request] == es;
    assert s3.statusTransfers == [2, 1];
    assert Removed([2, 1], 1) == 1 && Without([2, 1], 1) == [2] && Removed([2], 2) == 1 by { TwoIds(); }
    StatusFailedStep(s3, 1);
    AndThen(s, es, StatusDone(1, false, [], []));
    StatusFailedStep(Step(s3, StatusDone(1, false, [], [])), 2);
    AndThen(s, es + [StatusDone(1, false, [], [])], StatusDone(2, false, [], []));
  }

  lemma TwoIds()
    ensures Removed([2, 1], 1) == 1 && Without([2, 1], 1) == [2] && Removed([2], 2) == 1
  {
    assert [2, 1][1..] == [1] && [1][1..] == [] && [2][1..] == [];
    assert Removed([1], 1) == 1 && Without([1], 1) == [];
  }
}
