/**
 * The four operations as an object. The fields of the base class and of the derived classes stand in one class; the
 * methods that differ between the derived classes branch on `kind`. Every method takes the fields to exactly the
 * state that the function of the state machine gives.
 */
module HostOperations {
  import opened Bytes
  import opened Grammar
  import opened Files
  import opened ListFiles
  import opened FixedFiles
  import opened StatusFiles
  import opened LoadConfigurationList
  import F = Filenames
  import S = OperationState

  class HostOperation {
    const kind: S.Kind
    const target: F.TargetId
    const dlpTimeout: nat
    var abortReason: S.AbortReason
    var protocolVersion: uint16
    var initialisation: Option<S.Id>
    var statusTransfers: seq<S.Id>
    var listTransfer: Option<S.Id>
    var clientTransfer: Option<S.Id>
    var sent: bool
    var waitForFinalStatus: bool
    var timer: Option<nat>
    var serverUp: bool
    var now: nat
    var nextId: S.Id
    ghost var world: S.World
    ghost var history: S.History

    ghost function View(): S.State
      reads this
    {
      S.State(kind, target, dlpTimeout, abortReason, protocolVersion, initialisation, statusTransfers, listTransfer,
              clientTransfer, sent, waitForFinalStatus, timer, serverUp, now, nextId, world, history)
    }

    constructor (kind: S.Kind, target: F.TargetId, dlpTimeout: nat)
      ensures View() == S.Initial(kind, target, dlpTimeout)
    {
      this.kind, this.target, this.dlpTimeout := kind, target, dlpTimeout;
      abortReason, protocolVersion, initialisation, statusTransfers := S.NoAbort, 0, None, [];
      listTransfer, clientTransfer, sent, waitForFinalStatus := None, None, false, false;
      timer, serverUp, now, nextId := None, false, 0, 0;
      world, history := S.World({}, {}, {}, {}), S.Empty;
    }

    // ---- Calls to the TFTP layer, the timer and the handler ----------------------------------------------------------

    method GracefulAbort(id: S.Id)
      modifies this`history
      ensures View() == S.Log(old(View()), S.TransferCancelled(id))
    {
      history := S.Snoc(history, S.TransferCancelled(id));
    }

    method ErrorOperation(remote: nat)
      modifies this`history
      ensures View() == S.Log(old(View()), S.ErrorSent(remote))
    {
      history := S.Snoc(history, S.ErrorSent(remote));
    }

    method StartTransfer(role: S.Role, file: seq<byte>) returns (id: S.Id)
      modifies this`nextId, this`world, this`history
      ensures id == old(nextId)
      ensures View() == S.Begin(old(View()), role, file)
    {
      id := nextId;
      nextId := nextId + 1;
      match role {
        case InitialisationTransfer => world := world.(initialisations := world.initialisations + {id});
        case StatusTransfer => world := world.(statuses := world.statuses + {id});
        case ListTransfer => world := world.(lists := world.lists + {id});
        case ClientTransfer => world := world.(clients := world.clients + {id});
      }
      history := S.Snoc(history, S.TransferBegun(id, role, file));
    }

    method TriggerDlpTimeout(exceptionTime: nat)
      modifies this`timer, this`history
      ensures View() == S.TriggerDlpTimeout(old(View()), exceptionTime)
    {
      timer := Some(now + if exceptionTime < dlpTimeout then dlpTimeout else exceptionTime);
      history := S.Snoc(history, S.Armed(now, exceptionTime));
    }

    method Finish(code: uint16, cause: S.Cause)
      modifies this`timer, this`serverUp, this`history
      ensures View() == S.Finish(old(View()), code, cause)
    {
      history := S.Snoc(history, S.Finished(now, code, cause));
      timer := None;
      serverUp := false;
    }

    // ---- Calls of the application --------------------------------------------------------------------------------------

    method DoAbort(reason: S.AbortReason)
      modifies this`abortReason, this`history
      ensures View() == S.DoAbort(old(View()), reason)
    {
      if abortReason != S.NoAbort {
        return;
      }
      abortReason := reason;
      if reason != S.NoAbort {
        history := S.Snoc(history, S.AbortAccepted(reason));
      }
      if initialisation.Some? {
        GracefulAbort(initialisation.value);
      }
    }

    method DoTerminate(reason: S.AbortReason)
      modifies this`timer, this`serverUp, this`history
      ensures View() == S.DoTerminate(old(View()), reason)
    {
      if initialisation.Some? {
        GracefulAbort(initialisation.value);
      }
      var code := OPERATION_ABORTED_BY_DLP;
      if reason == S.Operator {
        code := OPERATION_ABORTED_BY_OPERATOR;
      }
      Finish(code, S.TerminateRequest);
    }

    method Start()
      modifies this
      ensures View() == S.Start(old(View()))
    {
      hide S.Begin;
      history := S.Snoc(history, S.RunBegun);
      if kind == S.Information {
        waitForFinalStatus := false;
      } else {
        sent := false;
      }
      serverUp := true;
      var id := StartTransfer(S.InitialisationTransfer, []);
      initialisation := Some(id);
    }

    /** loadList, answer or request; `threw` is the exception of the encoder. */
    method Submit(p: S.Payload) returns (threw: bool)
      modifies this
      ensures View() == S.DoSubmit(old(View()), p)
      ensures threw == S.SubmitThrows(old(View()), p)
    {
      if sent {
        return false;
      }
      var file;
      match p {
        case LoadList(loads) =>
          var f := new UploadOperationRequestFile(protocolVersion, loads);
          file := f.Encode();
        case Answer(files) =>
          var f := new DownloadOperationAnswerFile(protocolVersion, files);
          file := f.Encode();
        case Request(files, data) =>
          var f := new DownloadOperationRequestFile(protocolVersion, files, data);
          file := f.Encode();
      }
      assert file == S.FileOf(protocolVersion, p);
      if file == None {
        return true;
      }
      var id := StartTransfer(S.ClientTransfer, file.value);
      clientTransfer := Some(id);
      threw := false;
    }

    method Perform(call: S.Call) returns (threw: bool)
      modifies this
      ensures View() == S.DoCall(old(View()), call)
      ensures threw == S.Throws(old(View()), call)
    {
      hide S.DoAbort, S.DoTerminate, S.DoSubmit, S.SubmitThrows;
      threw := false;
      match call {
        case Abort(reason) => DoAbort(reason);
        case Terminate(reason) => DoTerminate(reason);
        case Submit(p) => threw := Submit(p);
      }
    }

    /** What the handler does when it is called back. */
    method CallHandler(calls: seq<S.Call>) returns (threw: bool)
      modifies this
      ensures View() == S.React(old(View()), calls)
      ensures threw == S.ReactionThrows(old(View()), calls)
    {
      hide S.DoCall, S.Throws;
      var i := 0;
      while i < |calls|
        invariant 0 <= i <= |calls|
        invariant S.React(View(), calls[i..]) == S.React(old(View()), calls)
        invariant S.ReactionThrows(View(), calls[i..]) == S.ReactionThrows(old(View()), calls)
      {
        ghost var before := View();
        assert calls[i..][0] == calls[i] && calls[i..][1..] == calls[i + 1..];
        threw := Perform(calls[i]);
        if threw {
          ThrowingCallIsVoid(before, calls[i]);
          return;
        }
        i := i + 1;
      }
      threw := false;
    }

    // ---- Requests of the target ----------------------------------------------------------------------------------------

    method IsAborted(remote: nat) returns (aborted: bool)
      modifies this`abortReason, this`timer, this`history
      ensures aborted == (old(abortReason) != S.NoAbort)
      ensures View() == S.IsAborted(old(View()), remote)
    {
      if abortReason == S.NoAbort {
        return false;
      }
      var code := OPERATION_ABORTED_BY_DLP;
      if abortReason == S.Operator {
        code := OPERATION_ABORTED_BY_OPERATOR;
      }
      history := S.Snoc(history, S.AbortSent(remote, code));
      abortReason := S.NoAbort;
      TriggerDlpTimeout(0);
      aborted := true;
    }

    method CheckRequest(filename: string, remote: nat) returns (ok: bool)
      modifies this`history
      ensures ok == !S.Foreign(old(View()), filename)
      ensures View() == if ok then old(View()) else S.Log(old(View()), S.ErrorSent(remote))
    {
      ok := !(F.IsProtocolFilename(filename) && F.ParseFilename(filename).targetId != target);
      if !ok {
        ErrorOperation(remote);
      }
    }

    method StatusFileRequest(remote: nat)
      modifies this
      ensures View() == S.StatusFileRequest(old(View()), remote)
    {
      var aborted := IsAborted(remote);
      if aborted {
        return;
      }
      var id := StartTransfer(S.StatusTransfer, []);
      statusTransfers := [id] + statusTransfers;
    }

    method ListFileRequest()
      modifies this
      ensures View() == S.ListFileRequest(old(View()))
    {
      if listTransfer.Some? {
        GracefulAbort(listTransfer.value);
      }
      var id := StartTransfer(S.ListTransfer, []);
      listTransfer := Some(id);
    }

    method FileRequest(remote: nat, filename: string)
      modifies this`history
      ensures View() == S.Log(old(View()), S.FileRequested(remote, filename))
    {
      history := S.Snoc(history, S.FileRequested(remote, filename));
    }

    method TftpRequest(remote: nat, request: S.RequestType, filename: string)
      modifies this
      ensures View() == S.TftpRequest(old(View()), remote, request, filename)
    {
      hide S.Foreign, S.StatusFileRequest, S.ListFileRequest, F.ParseFilename, S.Log;
      var ok := CheckRequest(filename, remote);
      if !ok {
        return;
      }
      var fileType := F.ParseFilename(filename).fileType;
      match kind {
        case Information =>
          if !request.Write? {
            ErrorOperation(remote);
          }
          match fileType {
            case LoadConfigurationList => ListFileRequest();
            case LoadConfigurationStatus => StatusFileRequest(remote);
            case _ => ErrorOperation(remote);
          }
        case Upload =>
          match request {
            case Read => FileRequest(remote, filename);
            case Write =>
              if fileType.UploadStatus? {
                StatusFileRequest(remote);
              } else {
                ErrorOperation(remote);
              }
            case InvalidRequest =>
          }
        case OperatorDefinedDownload =>
          match request {
            case Read => ErrorOperation(remote);
            case Write =>
              match fileType {
                case DownloadStatus => StatusFileRequest(remote);
                case OperatorDefinedDownloadList => ListFileRequest();
                case _ => FileRequest(remote, filename);
              }
            case InvalidRequest =>
          }
        case MediaDefinedDownload =>
          match request {
            case Read => ErrorOperation(remote);
            case Write =>
              if fileType.DownloadStatus? {
                StatusFileRequest(remote);
              } else {
                FileRequest(remote, filename);
              }
            case InvalidRequest =>
          }
      }
    }

    // ---- Completed transfers and the timer -------------------------------------------------------------------------------

    method TimerHandler(error: bool)
      modifies this`timer, this`serverUp, this`history
      ensures View() == S.TimerHandler(old(View()), error)
    {
      timer := None;
      Finish(OPERATION_ABORTED_BY_DLP, if error then S.TimerError else S.DlpTimeout);
    }

    method InitialisationFileCompleted(id: S.Id, ok: bool, file: seq<byte>, calls: seq<S.Call>)
      modifies this
      ensures View() == S.InitialisationCompleted(old(View()), id, ok, file, calls)
    {
      hide DecodeFile, S.React, S.ReactionThrows, S.Finish, S.TakeInitialisation;
      initialisation := None;
      world := world.(initialisations := world.initialisations - {id});
      history := S.Snoc(history, S.TransferDone(id, S.InitialisationTransfer));
      assert View() == S.InitialisationOver(old(View()), id);
      if !ok {
        Finish(OPERATION_ABORTED_BY_DLP, S.InitialisationFailed);
        return;
      }
      var initFile := new InitializationFile(0, OPERATION_ACCEPTED, []);
      var decoded := initFile.Decode(file);
      if !decoded {
        Finish(OPERATION_ABORTED_BY_DLP, S.InitialisationFailed);
        return;
      }
      var threw := CallHandler(calls);
      HandleInitialisation(threw, initFile, file);
    }

    method HandleInitialisation(threw: bool, initFile: InitializationFile, ghost file: seq<byte>)
      requires DecodeFile(INIT, file) == Some(File(initFile.protocolVersion, initFile.ToValue()))
      modifies this
      ensures View() == S.TakeInitialisation(old(View()), threw, file)
    {
      hide DecodeFile, S.Finish, S.TriggerDlpTimeout;
      if threw {
        Finish(OPERATION_ABORTED_BY_DLP, S.InitialisationFailed);
      } else if initFile.code == OPERATION_ACCEPTED {
        protocolVersion := initFile.protocolVersion;
        history := S.Snoc(history, S.InitialisationTaken(file));
        TriggerDlpTimeout(0);
      } else if initFile.code == OPERATION_NOT_ACCEPTED || initFile.code == OPERATION_NOT_SUPPORTED {
        Finish(initFile.code, S.TargetAnswer);
      } else {
        Finish(OPERATION_ABORTED_BY_DLP, S.UnknownAcceptance);
      }
    }

    /** Removes every occurrence from the list and counts them. */
    method RemoveStatusTransfer(id: S.Id) returns (removed: nat)
      modifies this`statusTransfers
      ensures removed == S.Removed(old(statusTransfers), id)
      ensures statusTransfers == S.Without(old(statusTransfers), id)
    {
      var kept := [];
      var i := 0;
      removed := 0;
      while i < |statusTransfers|
        invariant 0 <= i <= |statusTransfers| && statusTransfers == old(statusTransfers)
        invariant removed + S.Removed(statusTransfers[i..], id) == S.Removed(statusTransfers, id)
        invariant kept + S.Without(statusTransfers[i..], id) == S.Without(statusTransfers, id)
      {
        assert statusTransfers[i..][1..] == statusTransfers[i + 1..];
        if statusTransfers[i] == id {
          removed := removed + 1;
        } else {
          assert kept + ([statusTransfers[i]] + S.Without(statusTransfers[i + 1..], id)) ==
                 kept + [statusTransfers[i]] + S.Without(statusTransfers[i + 1..], id);
          kept := kept + [statusTransfers[i]];
        }
        i := i + 1;
      }
      statusTransfers := kept;
    }

    method DecodeStatus(file: seq<byte>) returns (r: Option<S.StatusInfo>)
      ensures r == S.ReadStatus(kind, file)
    {
      hide DecodeFile;
      var noStatus := Head(OPERATION_ACCEPTED, [], 0, 0, 0, 0);
      match kind {
        case Information =>
          var f := new InformationOperationStatusFile(0, 0, OPERATION_ACCEPTED, 0, 0, []);
          var ok := f.Decode(file);
          r := if ok then Some(S.StatusInfo(f.code, f.exceptionTimer)) else None;
        case Upload =>
          var f := new UploadOperationStatusFile(0, noStatus, []);
          var ok := f.Decode(file);
          r := if ok then Some(S.StatusInfo(f.head.code, f.head.exceptionTimer)) else None;
        case _ =>
          var f := new DownloadOperationStatusFile(0, noStatus, []);
          var ok := f.Decode(file);
          r := if ok then Some(S.StatusInfo(f.head.code, f.head.exceptionTimer)) else None;
      }
    }

    method StatusFileCompleted(id: S.Id, ok: bool, file: seq<byte>, calls: seq<S.Call>)
      modifies this
      ensures View() == S.StatusFileCompleted(old(View()), id, ok, file, calls)
    {
      hide S.ReadStatus, S.React, S.ReactionThrows, S.Finish, S.TakeStatus, S.Without, S.Removed, DecodeFile;
      world := world.(statuses := world.statuses - {id});
      history := S.Snoc(history, S.TransferDone(id, S.StatusTransfer));
      var removed := RemoveStatusTransfer(id);
      assert View() == S.StatusOver(old(View()), id);
      if removed != 1 {
        Finish(OPERATION_ABORTED_BY_DLP, S.TransferNotInitiated);
        if kind == S.Information {
          return;                       // the other operations go on
        }
      }
      if !ok {
        Finish(OPERATION_ABORTED_BY_DLP, S.StatusTransferFailed);
        return;
      }
      var status := DecodeStatus(file);
      if status == None {
        return;
      }
      var threw := CallHandler(calls);
      if threw {
        return;
      }
      HandleStatus(status.value, file);
    }

    method HandleStatus(status: S.StatusInfo, file: seq<byte>)
      modifies this
      ensures View() == S.TakeStatus(old(View()), status, file)
    {
      hide S.Finish, S.TriggerDlpTimeout;
      history := S.Snoc(history, S.StatusTaken(file));
      if S.IsFinal(status.code) {
        Finish(status.code, S.TargetStatus);
      } else if S.IsProgress(status.code) {
        if kind == S.Information {
          waitForFinalStatus := true;
        }
        if status.code == OPERATION_ACCEPTED {
          TriggerDlpTimeout(0);
        } else {
          TriggerDlpTimeout(status.exceptionTimer);
        }
      } else {
        Finish(OPERATION_ABORTED_BY_DLP, S.UnknownStatus);
      }
    }

    method DecodeList(file: seq<byte>) returns (ok: bool)
      ensures ok <==> DecodeFile(S.ListKind(kind), file).Some?
    {
      hide DecodeFile;
      if kind == S.Information {
        var f := new LoadConfigurationListFile(0, []);
        ok := f.Decode(file);
      } else {
        var f := new DownloadOperationListFile(0, []);
        ok := f.Decode(file);
      }
    }

    method ListFailed()
      modifies this
      ensures View() == S.ListFailed(old(View()))
    {
      if kind == S.Information && !waitForFinalStatus {
        Finish(OPERATION_ABORTED_BY_DLP, S.InvalidList);
      } else {
        DoAbort(S.Protocol);
      }
    }

    method ListFileCompleted(id: S.Id, ok: bool, file: seq<byte>, calls: seq<S.Call>)
      modifies this
      ensures View() == S.ListFileCompleted(old(View()), id, ok, file, calls)
    {
      hide DecodeFile, S.React, S.ReactionThrows, S.Finish, S.TriggerDlpTimeout, S.ListFailed;
      listTransfer := None;
      world := world.(lists := world.lists - {id});
      history := S.Snoc(history, S.TransferDone(id, S.ListTransfer));
      assert View() == S.ListOver(old(View()), id);
      if !ok {
        ListFailed();
        return;
      }
      var decoded := DecodeList(file);
      if !decoded {
        ListFailed();
        return;
      }
      var threw := CallHandler(calls);
      if threw {
        ListFailed();
        return;
      }
      history := S.Snoc(history, S.ListTaken(file));
      if kind == S.Information {
        if !waitForFinalStatus {
          Finish(OPERATION_COMPLETED, S.ListReceived);
        } else {
          TriggerDlpTimeout(0);
        }
      }
    }

    /** Of load list, answer or request. */
    method ClientTransferCompleted(id: S.Id, ok: bool)
      modifies this
      ensures View() == S.ClientTransferCompleted(old(View()), id, ok)
    {
      clientTransfer := None;
      world := world.(clients := world.clients - {id});
      history := S.Snoc(history, S.TransferDone(id, S.ClientTransfer));
      if !ok {
        DoAbort(S.Protocol);
        return;
      }
      sent := true;
    }

    method PassTime(seconds: nat)
      modifies this`now
      ensures View() == old(View()).(now := old(now) + seconds)
    {
      now := now + seconds;
    }

    /** One event of a run. */
    method Handle(e: S.Event)
      modifies this
      ensures View() == S.Step(old(View()), e)
    {
      hide S.Start, S.DoCall, S.TftpRequest, S.InitialisationCompleted, S.StatusFileCompleted, S.ListFileCompleted,
           S.ClientTransferCompleted, S.TimerHandler;
      match e {
        case StartRequested => Start();
        case Called(call) => var _ := Perform(call);
        case Requested(remote, request, filename) => TftpRequest(remote, request, filename);
        case InitialisationDone(id, ok, file, calls) => InitialisationFileCompleted(id, ok, file, calls);
        case StatusDone(id, ok, file, calls) => StatusFileCompleted(id, ok, file, calls);
        case ListDone(id, ok, file, calls) => ListFileCompleted(id, ok, file, calls);
        case ClientDone(id, ok) => ClientTransferCompleted(id, ok);
        case TimerExpired => TimerHandler(false);
        case TimerFailed => TimerHandler(true);
        case TimePassed(seconds) => PassTime(seconds);
      }
    }
  }

  lemma ThrowingCallIsVoid(s: S.State, call: S.Call)
    requires S.Throws(s, call)
    ensures S.DoCall(s, call) == s
  {
  }

  /** A whole run of a new operation goes through the states of the state machine. */
  method Run(kind: S.Kind, target: F.TargetId, dlpTimeout: nat, es: seq<S.Event>) returns (operation: HostOperation)
    requires S.Possible(S.Initial(kind, target, dlpTimeout), es)
    ensures S.Reachable(operation.View())
    ensures operation.View() == S.After(S.Initial(kind, target, dlpTimeout), es)
  {
    hide S.Step, S.Enabled;
    operation := new HostOperation(kind, target, dlpTimeout);
    var i := 0;
    while i < |es|
      invariant 0 <= i <= |es|
      invariant S.After(operation.View(), es[i..]) == S.After(S.Initial(kind, target, dlpTimeout), es)
    {
      assert es[i..][0] == es[i] && es[i..][1..] == es[i + 1..];
      operation.Handle(es[i]);
      i := i + 1;
    }
  }
}
