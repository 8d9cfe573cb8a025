/**
 * The host side of the four operations as a state machine: what every call and every callback does to the fields of
 * an operation, and which calls it makes to the TFTP layer, the timer and the handler. The calls are kept in a
 * history. The environment owns the transfers; it reports each started transfer back at most once.
 */
module OperationState {
  import opened Bytes
  import opened Text
  import opened Grammar
  import opened Files
  import opened ListFiles
  import F = Filenames

  datatype Kind = Information | Upload | OperatorDefinedDownload | MediaDefinedDownload

  datatype AbortReason = NoAbort | Operator | Protocol

  datatype RequestType = Read | Write | InvalidRequest

  type Id = nat

  datatype Role = InitialisationTransfer | StatusTransfer | ListTransfer | ClientTransfer

  /** Why `finished` was called. */
  datatype Cause =
    | TerminateRequest | TimerError | DlpTimeout
    | InitialisationFailed | TargetAnswer | UnknownAcceptance
    | TransferNotInitiated | StatusTransferFailed | TargetStatus | UnknownStatus
    | InvalidList | ListReceived

  datatype Note =
    | RunBegun
    | TransferBegun(id: Id, role: Role, file: seq<byte>)   // `file` is what a client transfer sends
    | TransferDone(id: Id, role: Role)
    | TransferCancelled(id: Id)                            // gracefulAbort
    | AbortAccepted(reason: AbortReason)
    | AbortSent(remote: nat, code: uint16)
    | ErrorSent(remote: nat)
    | FileRequested(remote: nat, filename: string)         // handler callback
    | InitialisationTaken(file: seq<byte>)
    | StatusTaken(file: seq<byte>)
    | ListTaken(file: seq<byte>)
    | Armed(at: nat, exceptionTime: nat)
    | Finished(at: nat, code: uint16, cause: Cause)

  /** Newest entry last. */
  datatype History = Empty | Snoc(before: History, last: Note)

  datatype State = State(
    kind: Kind,
    target: F.TargetId,
    dlpTimeout: nat,
    abortReason: AbortReason,
    version: uint16,                 // 0 until an initialisation file is accepted
    initialisation: Option<Id>,
    statusTransfers: seq<Id>,
    listTransfer: Option<Id>,
    clientTransfer: Option<Id>,      // load list, answer or request
    sent: bool,                      // ... of which one has arrived
    waitForFinalStatus: bool,
    timer: Option<nat>,              // deadline
    serverUp: bool,
    now: nat,
    nextId: Id,
    world: World,
    history: History)

  /** Transfers that have been started and not reported back. */
  datatype World = World(initialisations: set<Id>, statuses: set<Id>, lists: set<Id>, clients: set<Id>)

  /** What the application hands over for the target. */
  datatype Payload =
    | LoadList(loads: seq<Load>)
    | Answer(files: seq<Chars>)
    | Request(files: seq<Chars>, userDefinedData: seq<byte>)

  /** Calls of the application, also from inside a handler. */
  datatype Call = Abort(reason: AbortReason) | Terminate(reason: AbortReason) | Submit(payload: Payload)

  predicate Suits(kind: Kind, call: Call) {
    call.Submit? ==>
      match kind
      case Information => false
      case Upload => call.payload.LoadList?
      case OperatorDefinedDownload => call.payload.Answer?
      case MediaDefinedDownload => call.payload.Request?
  }

  function Initial(kind: Kind, target: F.TargetId, dlpTimeout: nat): State {
    State(kind, target, dlpTimeout, NoAbort, 0, None, [], None, None, false, false, None, false, 0, 0,
          World({}, {}, {}, {}), Empty)
  }

  function Log(s: State, n: Note): State {
    s.(history := Snoc(s.history, n))
  }

  // ---- OperationImpl -------------------------------------------------------------------------------------------------

  function Max(a: nat, b: nat): nat {
    if a < b then b else a
  }

  function TriggerDlpTimeout(s: State, exceptionTime: nat): State {
    Log(s, Armed(s.now, exceptionTime)).(timer := Some(s.now + Max(exceptionTime, s.dlpTimeout)))
  }

  function Finish(s: State, code: uint16, cause: Cause): State {
    Log(s, Finished(s.now, code, cause)).(timer := None, serverUp := false)
  }

  function CodeOf(reason: AbortReason): uint16 {
    if reason == Operator then OPERATION_ABORTED_BY_OPERATOR else OPERATION_ABORTED_BY_DLP
  }

  function CancelInitialisation(s: State): State {
    if s.initialisation.Some? then Log(s, TransferCancelled(s.initialisation.value)) else s
  }

  function DoAbort(s: State, reason: AbortReason): State {
    if s.abortReason != NoAbort || reason == NoAbort then
      if s.abortReason != NoAbort then s else CancelInitialisation(s)
    else
      CancelInitialisation(Log(s, AbortAccepted(reason)).(abortReason := reason))
  }

  function DoTerminate(s: State, reason: AbortReason): State {
    Finish(CancelInitialisation(s), CodeOf(reason), TerminateRequest)
  }

  /** Starts a transfer; its ID is the old `nextId`. */
  function Begin(s: State, role: Role, file: seq<byte>): State {
    var w := s.world;
    var id := s.nextId;
    Log(s, TransferBegun(id, role, file)).(
      nextId := id + 1,
      world := match role
        case InitialisationTransfer => w.(initialisations := w.initialisations + {id})
        case StatusTransfer => w.(statuses := w.statuses + {id})
        case ListTransfer => w.(lists := w.lists + {id})
        case ClientTransfer => w.(clients := w.clients + {id}))
  }

  function Start(s: State): State {
    var s1 := Log(s, RunBegun).(
      waitForFinalStatus := if s.kind.Information? then false else s.waitForFinalStatus,
      sent := if s.kind.Information? then s.sent else false,
      serverUp := true);
    Begin(s1, InitialisationTransfer, []).(initialisation := Some(s.nextId))
  }

  function IsAborted(s: State, remote: nat): State {
    if s.abortReason == NoAbort then s
    else TriggerDlpTimeout(Log(s, AbortSent(remote, CodeOf(s.abortReason))).(abortReason := NoAbort), 0)
  }

  predicate Foreign(s: State, filename: string) {
    F.IsProtocolFilename(filename) && F.ParseFilename(filename).targetId != s.target
  }

  function TimerHandler(s: State, error: bool): State {
    Finish(s.(timer := None), OPERATION_ABORTED_BY_DLP, if error then TimerError else DlpTimeout)
  }

  // ---- Calls of the application ----------------------------------------------------------------------------------------

  /** The octets of load list, answer or request; `None` is the exception of the encoder. */
  function FileOf(version: uint16, p: Payload): Option<seq<byte>> {
    match p
    case LoadList(loads) => ValuesFit(loads, [], []); EncodeFile(LUR, version, LoadsValue(loads))
    case Answer(files) => ValuesFit([], files, []); EncodeFile(LNA, version, NamesValue(files))
    case Request(files, data) => ValuesFit([], files, data); EncodeFile(LNR, version, RequestValue(files, data))
  }

  predicate SubmitThrows(s: State, p: Payload) {
    !s.sent && FileOf(s.version, p) == None
  }

  function DoSubmit(s: State, p: Payload): State {
    if s.sent || FileOf(s.version, p) == None then s
    else Begin(s, ClientTransfer, FileOf(s.version, p).value).(clientTransfer := Some(s.nextId))
  }

  function DoCall(s: State, call: Call): State {
    match call
    case Abort(reason) => DoAbort(s, reason)
    case Terminate(reason) => DoTerminate(s, reason)
    case Submit(p) => DoSubmit(s, p)
  }

  /** What a handler does while it is called back; a throwing call ends it. */
  function React(s: State, calls: seq<Call>): State
    decreases |calls|
  {
    if calls == [] then s
    else if Throws(s, calls[0]) then s
    else React(DoCall(s, calls[0]), calls[1..])
  }

  predicate Throws(s: State, call: Call) {
    call.Submit? && SubmitThrows(s, call.payload)
  }

  predicate ReactionThrows(s: State, calls: seq<Call>)
    decreases |calls|
  {
    calls != [] && (Throws(s, calls[0]) || ReactionThrows(DoCall(s, calls[0]), calls[1..]))
  }

  // ---- Completed transfers ---------------------------------------------------------------------------------------------

  function AcceptanceCode(file: seq<byte>): (code: uint16)
    requires DecodeFile(INIT, file).Some?
    ensures KnownAcceptance(code)
  {
    Accepted(Body(INIT), file[HEADER_SIZE..]);
    DecodeFile(INIT, file).value.value.a.n
  }

  function InitialisationOver(s: State, id: Id): State {
    Log(s, TransferDone(id, InitialisationTransfer)).(
      initialisation := None, world := s.world.(initialisations := s.world.initialisations - {id}))
  }

  function InitialisationCompleted(s: State, id: Id, ok: bool, file: seq<byte>, calls: seq<Call>): State {
    var s0 := InitialisationOver(s, id);
    if !ok || DecodeFile(INIT, file) == None then
      Finish(s0, OPERATION_ABORTED_BY_DLP, InitialisationFailed)
    else
      TakeInitialisation(React(s0, calls), ReactionThrows(s0, calls), file)
  }

  function TakeInitialisation(s: State, threw: bool, file: seq<byte>): State
    requires DecodeFile(INIT, file).Some?
  {
    var code := AcceptanceCode(file);
    if threw then
      Finish(s, OPERATION_ABORTED_BY_DLP, InitialisationFailed)
    else if code == OPERATION_ACCEPTED then
      TriggerDlpTimeout(Log(s, InitialisationTaken(file)).(version := DecodeFile(INIT, file).value.version), 0)
    else if code == OPERATION_NOT_ACCEPTED || code == OPERATION_NOT_SUPPORTED then
      Finish(s, code, TargetAnswer)
    else
      Finish(s, OPERATION_ABORTED_BY_DLP, UnknownAcceptance)
  }

  datatype StatusInfo = StatusInfo(code: uint16, exceptionTimer: uint16)

  function StatusKind(kind: Kind): FileKind {
    match kind
    case Information => LCS
    case Upload => LUS
    case _ => LNS
  }

  lemma StatusLayout(kind: Kind, v: Value)
    requires Fits(Body(StatusKind(kind)), v) && CodesKnown(Body(StatusKind(kind)), v)
    ensures kind == Information ==>
              && v.Pair? && v.b.Pair? && v.b.a.Num? && KnownStatus(v.b.a.n)
              && v.b.b.Pair? && v.b.b.a.Num? && 0 <= v.b.b.a.n < 0x1_0000
    ensures kind != Information ==>
              && v.Pair? && v.a.Num? && KnownStatus(v.a.n)
              && v.b.Pair? && v.b.b.Pair? && v.b.b.b.Pair? && v.b.b.b.a.Num? && 0 <= v.b.b.b.a.n < 0x1_0000
  {
    hide KnownStatus;
    if kind == Information {
      PairTaken(U16, Both(Status, Both(U16, Both(I16, String))), v);
      PairTaken(Status, Both(U16, Both(I16, String)), v.b);
      PairTaken(U16, Both(I16, String), v.b.b);
    } else {
      var list := Both(I16, Both(Percentage, Counted(if kind == Upload then LoadStatus() else FileStatus())));
      PairTaken(Status, Both(String, Both(U16, Both(U16, list))), v);
      PairTaken(String, Both(U16, Both(U16, list)), v.b);
      PairTaken(U16, Both(U16, list), v.b.b);
      PairTaken(U16, list, v.b.b.b);
    }
  }

  /** Code and exception timer of a status file. */
  function ReadStatus(kind: Kind, file: seq<byte>): (r: Option<StatusInfo>)
    ensures r.Some? <==> DecodeFile(StatusKind(kind), file).Some?
    ensures r.Some? ==> KnownStatus(r.value.code)
  {
    match DecodeFile(StatusKind(kind), file)
    case None => None
    case Some(File(_, v)) =>
      Accepted(Body(StatusKind(kind)), file[HEADER_SIZE..]);
      StatusLayout(kind, v);
      if kind == Information then Some(StatusInfo(v.b.a.n, v.b.b.a.n)) else Some(StatusInfo(v.a.n, v.b.b.b.a.n))
  }

  predicate IsFinal(code: int) {
    code in {OPERATION_NOT_ACCEPTED, OPERATION_NOT_SUPPORTED, OPERATION_COMPLETED, OPERATION_ABORTED_BY_TARGET_HW,
             OPERATION_ABORTED_BY_DLP, OPERATION_ABORTED_BY_OPERATOR}
  }

  predicate IsProgress(code: int) {
    code in {OPERATION_ACCEPTED, OPERATION_IN_PROGRESS, OPERATION_IN_PROGRESS_ADDITIONAL_INFO}
  }

  function Without(ids: seq<Id>, id: Id): seq<Id> {
    if ids == [] then []
    else if ids[0] == id then Without(ids[1..], id)
    else [ids[0]] + Without(ids[1..], id)
  }

  function Removed(ids: seq<Id>, id: Id): nat {
    if ids == [] then 0 else (if ids[0] == id then 1 else 0) + Removed(ids[1..], id)
  }

  function StatusOver(s: State, id: Id): State {
    Log(s, TransferDone(id, StatusTransfer)).(
      statusTransfers := Without(s.statusTransfers, id), world := s.world.(statuses := s.world.statuses - {id}))
  }

  function StatusFileCompleted(s: State, id: Id, ok: bool, file: seq<byte>, calls: seq<Call>): State {
    var s0 := StatusOver(s, id);
    var initiated := Removed(s.statusTransfers, id) == 1;
    var s1 := if initiated then s0 else Finish(s0, OPERATION_ABORTED_BY_DLP, TransferNotInitiated);
    if !initiated && s.kind.Information? then s1 else StatusReceived(s1, ok, file, calls)
  }

  function StatusReceived(s: State, ok: bool, file: seq<byte>, calls: seq<Call>): State {
    if !ok then Finish(s, OPERATION_ABORTED_BY_DLP, StatusTransferFailed)
    else if ReadStatus(s.kind, file) == None then s
    else if ReactionThrows(s, calls) then React(s, calls)
    else TakeStatus(React(s, calls), ReadStatus(s.kind, file).value, file)
  }

  function TakeStatus(s: State, status: StatusInfo, file: seq<byte>): State {
    var s1 := Log(s, StatusTaken(file));
    var s2 := if s.kind.Information? then s1.(waitForFinalStatus := true) else s1;
    if IsFinal(status.code) then Finish(s1, status.code, TargetStatus)
    else if status.code == OPERATION_ACCEPTED then TriggerDlpTimeout(s2, 0)
    else if IsProgress(status.code) then TriggerDlpTimeout(s2, status.exceptionTimer)
    else Finish(s1, OPERATION_ABORTED_BY_DLP, UnknownStatus)
  }

  function ListKind(kind: Kind): FileKind {
    if kind.Information? then LCL else LNL
  }

  function ListFailed(s: State): State {
    if s.kind.Information? && !s.waitForFinalStatus then Finish(s, OPERATION_ABORTED_BY_DLP, InvalidList)
    else DoAbort(s, Protocol)
  }

  /** Whichever list transfer this is, the field is cleared. */
  function ListOver(s: State, id: Id): State {
    Log(s, TransferDone(id, ListTransfer)).(listTransfer := None, world := s.world.(lists := s.world.lists - {id}))
  }

  function ListFileCompleted(s: State, id: Id, ok: bool, file: seq<byte>, calls: seq<Call>): State {
    var s0 := ListOver(s, id);
    if !ok || DecodeFile(ListKind(s.kind), file) == None then ListFailed(s0)
    else if ReactionThrows(s0, calls) then ListFailed(React(s0, calls))
    else TakeList(React(s0, calls), file)
  }

  function TakeList(s: State, file: seq<byte>): State {
    var s1 := Log(s, ListTaken(file));
    if !s.kind.Information? then s1
    else if !s.waitForFinalStatus then Finish(s1, OPERATION_COMPLETED, ListReceived)
    else TriggerDlpTimeout(s1, 0)
  }

  function ClientOver(s: State, id: Id): State {
    Log(s, TransferDone(id, ClientTransfer)).(clientTransfer := None, world := s.world.(clients := s.world.clients - {id}))
  }

  function ClientTransferCompleted(s: State, id: Id, ok: bool): State {
    var s0 := ClientOver(s, id);
    if ok then s0.(sent := true) else DoAbort(s0, Protocol)
  }

  // ---- Requests of the target -------------------------------------------------------------------------------------------

  function StatusFileRequest(s: State, remote: nat): State {
    if s.abortReason != NoAbort then IsAborted(s, remote)
    else Begin(s, StatusTransfer, []).(statusTransfers := [s.nextId] + s.statusTransfers)
  }

  function ListFileRequest(s: State): State {
    var s1 := if s.listTransfer.Some? then Log(s, TransferCancelled(s.listTransfer.value)) else s;
    Begin(s1, ListTransfer, []).(listTransfer := Some(s.nextId))
  }

  function TftpRequest(s: State, remote: nat, request: RequestType, filename: string): State {
    if Foreign(s, filename) then Log(s, ErrorSent(remote))
    else
      var fileType := F.ParseFilename(filename).fileType;
      match s.kind
      case Information =>
        var s1 := if request.Write? then s else Log(s, ErrorSent(remote));   // and goes on
        if fileType.LoadConfigurationList? then ListFileRequest(s1)
        else if fileType.LoadConfigurationStatus? then StatusFileRequest(s1, remote)
        else Log(s1, ErrorSent(remote))
      case Upload =>
        (match request
         case Read => Log(s, FileRequested(remote, filename))
         case Write => if fileType.UploadStatus? then StatusFileRequest(s, remote) else Log(s, ErrorSent(remote))
         case InvalidRequest => s)
      case _ =>
        (match request
         case Read => Log(s, ErrorSent(remote))
         case Write =>
           if fileType.DownloadStatus? then StatusFileRequest(s, remote)
           else if s.kind.OperatorDefinedDownload? && fileType.OperatorDefinedDownloadList? then ListFileRequest(s)
           else Log(s, FileRequested(remote, filename))
         case InvalidRequest => s)
  }

  // ---- Runs ----------------------------------------------------------------------------------------------------------------

  datatype Event =
    | StartRequested
    | Called(call: Call)
    | Requested(remote: nat, request: RequestType, filename: string)
    | InitialisationDone(id: Id, ok: bool, file: seq<byte>, calls: seq<Call>)
    | StatusDone(id: Id, ok: bool, file: seq<byte>, calls: seq<Call>)
    | ListDone(id: Id, ok: bool, file: seq<byte>, calls: seq<Call>)
    | ClientDone(id: Id, ok: bool)
    | TimerExpired
    | TimerFailed
    | TimePassed(seconds: nat)

  function CallsIn(e: Event): seq<Call> {
    match e
    case Called(call) => [call]
    case InitialisationDone(_, _, _, calls) => calls
    case StatusDone(_, _, _, calls) => calls
    case ListDone(_, _, _, calls) => calls
    case _ => []
  }

  /** What the environment can do: only transfers in flight complete, only a running server receives requests. */
  predicate Enabled(s: State, e: Event) {
    && (forall c <- CallsIn(e) :: Suits(s.kind, c))
    && match e
       case Requested(_, _, _) => s.serverUp
       case InitialisationDone(id, _, _, _) => id in s.world.initialisations
       case StatusDone(id, _, _, _) => id in s.world.statuses
       case ListDone(id, _, _, _) => id in s.world.lists
       case ClientDone(id, _) => id in s.world.clients
       case TimerExpired => s.timer.Some? && s.timer.value <= s.now
       case TimerFailed => s.timer.Some?
       case _ => true
  }

  function Step(s: State, e: Event): State {
    match e
    case StartRequested => Start(s)
    case Called(call) => DoCall(s, call)
    case Requested(remote, request, filename) => TftpRequest(s, remote, request, filename)
    case InitialisationDone(id, ok, file, calls) => InitialisationCompleted(s, id, ok, file, calls)
    case StatusDone(id, ok, file, calls) => StatusFileCompleted(s, id, ok, file, calls)
    case ListDone(id, ok, file, calls) => ListFileCompleted(s, id, ok, file, calls)
    case ClientDone(id, ok) => ClientTransferCompleted(s, id, ok)
    case TimerExpired => TimerHandler(s, false)
    case TimerFailed => TimerHandler(s, true)
    case TimePassed(seconds) => s.(now := s.now + seconds)
  }

  function After(s: State, es: seq<Event>): State
    decreases |es|
  {
    if es == [] then s else After(Step(s, es[0]), es[1..])
  }

  predicate Possible(s: State, es: seq<Event>)
    decreases |es|
  {
    es != [] ==> Enabled(s, es[0]) && Possible(Step(s, es[0]), es[1..])
  }

  /** `s` is reached by some run of a new operation. */
  ghost predicate Reachable(s: State) {
    exists kind, target, dlpTimeout, es ::
      && Possible(Initial(kind, target, dlpTimeout), es)
      && s == After(Initial(kind, target, dlpTimeout), es)
  }
}
