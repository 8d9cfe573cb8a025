/** The upload command: the handler of an upload operation, which sends its load list when the target accepts. */
module UploadCommand {
  import opened Bytes
  import opened Text
  import opened Grammar
  import opened Files
  import opened ListFiles
  import opened OperationState
  import opened OperationSafety
  import opened OperationTally
  import opened HostOperations
  import F = Filenames

  /** An upload in progress: the operation and the fields of its command. */
  datatype Job = Job(operation: State, loads: seq<Load>, transmitted: bool)

  function NewJob(target: F.TargetId, dlpTimeout: nat, loads: seq<Load>): Job {
    Job(Initial(Upload, target, dlpTimeout), loads, false)
  }

  /** What the command does with a status of this code. */
  function Reaction(j: Job, code: uint16): seq<Call> {
    if code == OPERATION_ACCEPTED && !j.transmitted then [Submit(LoadList(j.loads))] else []
  }

  function ReactionTo(j: Job, file: seq<byte>): seq<Call> {
    match ReadStatus(Upload, file)
    case None => []
    case Some(status) => Reaction(j, status.code)
  }

  /** The event is possible for an operation with this command as its handler; only the command submits. */
  predicate Expected(j: Job, e: Event) {
    && Enabled(j.operation, e)
    && match e
       case Called(call) => !call.Submit?
       case StatusDone(_, _, file, calls) => calls == ReactionTo(j, file)
       case _ => CallsIn(e) == []
  }

  /** The command has called `loadList`, and that has not thrown. */
  predicate Transmits(j: Job, e: Event) {
    && e.StatusDone? && StatusIsPassedOn(j.operation, e.id, e.ok, e.file)
    && e.calls != [] && !Throws(j.operation, e.calls[0])
  }

  function JobStep(j: Job, e: Event): Job {
    j.(operation := Step(j.operation, e), transmitted := j.transmitted || Transmits(j, e))
  }

  function JobAfter(j: Job, es: seq<Event>): Job
    decreases |es|
  {
    if es == [] then j else JobAfter(JobStep(j, es[0]), es[1..])
  }

  predicate JobPossible(j: Job, es: seq<Event>)
    decreases |es|
  {
    es != [] ==> Expected(j, es[0]) && JobPossible(JobStep(j, es[0]), es[1..])
  }

  ghost predicate JobReachable(j: Job) {
    exists target, dlpTimeout, es ::
      JobPossible(NewJob(target, dlpTimeout, j.loads), es) && j == JobAfter(NewJob(target, dlpTimeout, j.loads), es)
  }

  /** The load lists that have been handed to TFTP. */
  function SentLists(j: Job): seq<seq<byte>> {
    TallyOf(j.operation).sentFiles
  }

  ghost predicate JobInv(j: Job) {
    && j.operation.kind == Upload && Inv(j.operation) && Watched(j.operation)
    && |SentLists(j)| == (if j.transmitted then 1 else 0)
    && (!j.transmitted ==> !j.operation.sent && j.operation.world.clients == {})
  }

  /** Still the same kind of operation; a client transfer is only new if a file was handed over. */
  predicate Quiet(s: State, t: State, handed: seq<seq<byte>>) {
    && t.kind == s.kind && (t.sent ==> s.sent)
    && (handed == [] ==> t.world.clients <= s.world.clients)
  }

  lemma StepIsQuiet(s: State, e: Event)
    requires !e.ClientDone?
    ensures Quiet(s, Step(s, e), HandedBy(s, e))
  {
    hide DoCall, InitialisationCompleted, StatusFileCompleted, ListFileCompleted, TftpRequest, TimerHandler, Handed,
         StatusIsPassedOn, DecodeFile;
    match e {
      case Called(call) => CallIsQuiet(s, call);
      case InitialisationDone(id, ok, file, calls) => InitialisationIsQuiet(s, id, ok, file, calls);
      case StatusDone(id, ok, file, calls) => StatusFileIsQuiet(s, id, ok, file, calls);
      case ListDone(id, ok, file, calls) => ListFileIsQuiet(s, id, ok, file, calls);
      case Requested(remote, request, filename) => RequestIsQuiet(s, remote, request, filename);
      case TimerExpired => EndIsQuiet(s, OPERATION_ABORTED_BY_DLP, DlpTimeout, 0);
      case TimerFailed => EndIsQuiet(s, OPERATION_ABORTED_BY_DLP, TimerError, 0);
      case _ =>
    }
  }

  lemma CallIsQuiet(s: State, call: Call)
    ensures Quiet(s, DoCall(s, call), Handed(s, [call]))
  {
    hide FileOf;
    assert [call][1..] == [];
  }

  lemma {:induction false} ReactIsQuiet(s: State, calls: seq<Call>)
    ensures Quiet(s, React(s, calls), Handed(s, calls))
    decreases |calls|
  {
    hide DoCall, Throws;
    if calls != [] && !Throws(s, calls[0]) {
      CallIsQuiet(s, calls[0]);
      HandingFrame(s, calls[0]);
      SameHanded(s, DoCall(s, calls[0]), calls[1..]);
      HandedFront(s, calls);
      ReactIsQuiet(DoCall(s, calls[0]), calls[1..]);
    }
  }

  lemma HandedFront(s: State, calls: seq<Call>)
    requires calls != [] && !Throws(s, calls[0])
    ensures Handed(s, calls) == Handed(s, [calls[0]]) + Handed(s, calls[1..])
  {
    hide FileOf;
    assert [calls[0]][1..] == [];
  }

  lemma EndIsQuiet(s: State, code: uint16, cause: Cause, exceptionTime: nat)
    ensures Quiet(s, Finish(s, code, cause), []) && Quiet(s, TriggerDlpTimeout(s, exceptionTime), [])
    ensures cause == DlpTimeout ==> Quiet(s, TimerHandler(s, false), [])
    ensures cause == TimerError ==> Quiet(s, TimerHandler(s, true), [])
  {
  }

  lemma OverIsQuiet(s: State, id: Id)
    ensures forall t <- [InitialisationOver(s, id), StatusOver(s, id), ListOver(s, id)] ::
              Quiet(s, t, []) && t.sent == s.sent && t.version == s.version
  {
  }

  lemma InitialisationIsQuiet(s: State, id: Id, ok: bool, file: seq<byte>, calls: seq<Call>)
    ensures Quiet(s, InitialisationCompleted(s, id, ok, file, calls), HandedBy(s, InitialisationDone(id, ok, file, calls)))
  {
    hide DecodeFile, React, ReactionThrows, Handed, InitialisationOver, Finish, TakeInitialisation;
    var s0 := InitialisationOver(s, id);
    OverIsQuiet(s, id);
    SameHanded(s, s0, calls);
    ReactIsQuiet(s0, calls);
    EndIsQuiet(s0, OPERATION_ABORTED_BY_DLP, InitialisationFailed, 0);
    if DecodeFile(INIT, file).Some? {
      AnswerIsQuiet(React(s0, calls), ReactionThrows(s0, calls), file);
    }
  }

  lemma AnswerIsQuiet(s: State, threw: bool, file: seq<byte>)
    requires DecodeFile(INIT, file).Some?
    ensures Quiet(s, TakeInitialisation(s, threw, file), [])
  {
    hide DecodeFile, AcceptanceCode;
  }

  lemma StatusFileIsQuiet(s: State, id: Id, ok: bool, file: seq<byte>, calls: seq<Call>)
    ensures Quiet(s, StatusFileCompleted(s, id, ok, file, calls), HandedBy(s, StatusDone(id, ok, file, calls)))
  {
    hide StatusReceived, StatusOver, Finish, Removed, Handed, ReadStatus;
    var s0 := StatusOver(s, id);
    OverIsQuiet(s, id);
    FinishFrame(s0, OPERATION_ABORTED_BY_DLP, TransferNotInitiated);
    EndIsQuiet(s0, OPERATION_ABORTED_BY_DLP, TransferNotInitiated, 0);
    var s1 := if Removed(s.statusTransfers, id) == 1 then s0
              else Finish(s0, OPERATION_ABORTED_BY_DLP, TransferNotInitiated);
    SameHanded(s, s1, calls);
    StatusIsQuiet(s1, ok, file, calls);
  }

  lemma StatusIsQuiet(s: State, ok: bool, file: seq<byte>, calls: seq<Call>)
    ensures Quiet(s, StatusReceived(s, ok, file, calls), if ok && ReadStatus(s.kind, file).Some? then Handed(s, calls) else [])
  {
    hide ReadStatus, React, ReactionThrows, TakeStatus, Finish, Handed;
    ReactIsQuiet(s, calls);
    EndIsQuiet(s, OPERATION_ABORTED_BY_DLP, StatusTransferFailed, 0);
    if ReadStatus(s.kind, file).Some? {
      TakenIsQuiet(React(s, calls), ReadStatus(s.kind, file).value, file);
    }
  }

  lemma TakenIsQuiet(s: State, status: StatusInfo, file: seq<byte>)
    ensures Quiet(s, TakeStatus(s, status, file), [])
  {
  }

  lemma ListFileIsQuiet(s: State, id: Id, ok: bool, file: seq<byte>, calls: seq<Call>)
    ensures Quiet(s, ListFileCompleted(s, id, ok, file, calls), HandedBy(s, ListDone(id, ok, file, calls)))
  {
    hide DecodeFile, React, ReactionThrows, Handed, ListFailed, TakeList, ListOver;
    var s0 := ListOver(s, id);
    OverIsQuiet(s, id);
    SameHanded(s, s0, calls);
    ReactIsQuiet(s0, calls);
    ListEndIsQuiet(s0, file);
    ListEndIsQuiet(React(s0, calls), file);
  }

  lemma ListEndIsQuiet(s: State, file: seq<byte>)
    ensures Quiet(s, ListFailed(s), []) && Quiet(s, TakeList(s, file), [])
  {
  }

  lemma RequestIsQuiet(s: State, remote: nat, request: RequestType, filename: string)
    ensures Quiet(s, TftpRequest(s, remote, request, filename), [])
  {
    hide Foreign, F.ParseFilename, StatusFileRequest, ListFileRequest;
    RequestPartsAreQuiet(s, remote);
    RequestPartsAreQuiet(Log(s, ErrorSent(remote)), remote);
  }

  lemma RequestPartsAreQuiet(s: State, remote: nat)
    ensures Quiet(s, StatusFileRequest(s, remote), []) && Quiet(s, ListFileRequest(s), [])
  {
  }

  /** The reaction of the command hands over one list, if it has not done so before and the encoder accepts it. */
  lemma ReactionHands(j: Job, file: seq<byte>)
    ensures Handed(j.operation, ReactionTo(j, file)) ==
            if ReactionTo(j, file) != [] && !Throws(j.operation, ReactionTo(j, file)[0]) && !j.operation.sent
            then [FileOf(j.operation.version, LoadList(j.loads)).value] else []
  {
    hide FileOf, ReadStatus;
    var calls := ReactionTo(j, file);
    if calls != [] {
      assert calls[1..] == [];
    }
  }

  lemma JobStepKeeps(j: Job, e: Event)
    requires JobInv(j) && Expected(j, e)
    ensures JobInv(JobStep(j, e))
  {
    hide Inv, Watched, Step, ReadStatus, FileOf, TallyOf, Handed, StatusIsPassedOn, ReactionTo, Throws, DecodeFile;
    var s := j.operation;
    StepKeeps(s, e);
    StepTally(s, e);
    if e.ClientDone? {
      ClientFrame(s, e);
    } else {
      StepIsQuiet(s, e);
      assert s.world.clients == {} && HandedBy(s, e) == [] ==> Step(s, e).world.clients == {};
    }
    if e.StatusDone? {
      ReactionHands(j, e.file);
      TransmittedReactsNot(j, e.file);
    } else {
      NothingHanded(s, e);
    }
  }

  lemma ClientFrame(s: State, e: Event)
    requires e.ClientDone?
    ensures Step(s, e).kind == s.kind
  {
  }

  lemma TransmittedReactsNot(j: Job, file: seq<byte>)
    ensures j.transmitted ==> ReactionTo(j, file) == []
  {
  }

  lemma NothingHanded(s: State, e: Event)
    requires if e.Called? then !e.call.Submit? else CallsIn(e) == []
    ensures HandedBy(s, e) == []
  {
    hide FileOf, DecodeFile, StatusIsPassedOn;
    if e.Called? {
      assert [e.call][1..] == [] && Handed(s, []) == [];
      assert HandedBy(s, e) == Handed(s, [e.call]);
    }
  }

  lemma {:induction false} JobRunKeeps(j: Job, es: seq<Event>)
    requires JobInv(j) && JobPossible(j, es)
    ensures JobInv(JobAfter(j, es))
    decreases |es|
  {
    hide JobInv, JobStep, Expected;
    if es != [] {
      JobStepKeeps(j, es[0]);
      JobRunKeeps(JobStep(j, es[0]), es[1..]);
    }
  }

  lemma JobReachableKeeps(j: Job)
    requires JobReachable(j)
    ensures JobInv(j)
  {
    hide JobAfter, JobPossible, Inv, Watched;
    var target, dlpTimeout, es :|
      JobPossible(NewJob(target, dlpTimeout, j.loads), es) && j == JobAfter(NewJob(target, dlpTimeout, j.loads), es);
    var first := NewJob(target, dlpTimeout, j.loads);
    InitialKeeps(Upload, target, dlpTimeout);
    JobRunKeeps(first, es);
  }

  // ---- Main results ------------------------------------------------------------------------------------------------------

  /** Over a whole run, restarts included, one load list is handed to TFTP if the command says so, and else none. */
  lemma AtMostOneLoadList(j: Job)
    requires JobReachable(j)
    ensures |SentLists(j)| == if j.transmitted then 1 else 0
  {
    hide TallyOf;
    JobReachableKeeps(j);
  }

  predicate SomeAccepted(h: History) {
    match h
    case Empty => false
    case Snoc(_, InitialisationTaken(_)) => true
    case Snoc(b, _) => SomeAccepted(b)
  }

  /** The loads as a decoder sees them. */
  function Visible(loads: seq<Load>): seq<Load> {
    seq(|loads|, i requires 0 <= i < |loads| =>
      Load(CutAtNul(loads[i].headerFilename), CutAtNul(loads[i].partNumber)))
  }

  lemma VisibleLoads(loads: seq<Load>)
    ensures Fits(Body(LUR), LoadsValue(loads))
    ensures CodesKnown(Body(LUR), LoadsValue(loads))
    ensures Trim(Body(LUR), LoadsValue(loads)) == LoadsValue(Visible(loads))
  {
    ValuesFit(loads, [], []);
    var vs := LoadListValues(loads);
    forall i | 0 <= i < |loads| ensures Trim(Both(String, String), vs[i]) == LoadListValues(Visible(loads))[i] {
    }
    assert Trim(Body(LUR), LoadsValue(loads)).items == LoadListValues(Visible(loads));
  }

  lemma NulFreeIsVisible(loads: seq<Load>)
    requires forall l <- loads :: NUL !in l.headerFilename && NUL !in l.partNumber
    ensures Visible(loads) == loads
  {
    forall i | 0 <= i < |loads| ensures Visible(loads)[i] == loads[i] {
      assert loads[i] in loads;
    }
  }

  /** Every version that was announced is a supported one. */
  lemma {:induction false} AnnouncedIsSupported(kind: Kind, dlpTimeout: nat, h: History)
    requires AllJustified(kind, dlpTimeout, h)
    ensures if SomeAccepted(h) then Supported(AnnouncedVersion(h)) else AnnouncedVersion(h) == 0
  {
    hide ReadStatus, LastArmed, SeenProgress;
    if h.Snoc? && !h.last.InitialisationTaken? {
      AnnouncedIsSupported(kind, dlpTimeout, h.before);
    }
  }

  /** How the target reads the load list that is sent in this version. */
  lemma LoadListDecodes(version: uint16, loads: seq<Load>)
    requires FileOf(version, LoadList(loads)).Some?
    ensures DecodeFile(LUR, FileOf(version, LoadList(loads)).value) ==
            if Supported(version) then Some(File(version, LoadsValue(Visible(loads)))) else None
  {
    hide DecodeFile, Fits, Encodable, CodesKnown, Trim;
    VisibleLoads(loads);
    FileRoundTrip(LUR, version, LoadsValue(loads));
    LengthNeverTruncates(LUR, version, LoadsValue(loads));
    MinimumIsMet(LUR, version, LoadsValue(loads));
  }

  lemma VersionIsAnnounced(s: State)
    requires Inv(s)
    ensures s.version == AnnouncedVersion(s.history)
    ensures Supported(s.version) <==> SomeAccepted(s.history)
  {
    AnnouncedIsSupported(s.kind, s.dlpTimeout, s.history);
  }

  /**
   * When a load list is handed over it is the first one, and the target can read it if and only if an initialisation
   * file has been accepted before: it then reads exactly the selected loads, in order, and the announced version.
   */
  lemma LoadListIsReadable(j: Job, e: Event, file: seq<byte>)
    requires JobReachable(j) && Expected(j, e)
    requires SentLists(JobStep(j, e)) == SentLists(j) + [file]
    ensures SentLists(j) == []
    ensures DecodeFile(LUR, file) ==
            if SomeAccepted(j.operation.history)
            then Some(File(AnnouncedVersion(j.operation.history), LoadsValue(Visible(j.loads))))
            else None
  {
    hide TallyOf, Step, Handed, StatusIsPassedOn, ReactionTo, Throws, Inv, Watched, FileOf, DecodeFile, Supported;
    var s := j.operation;
    JobReachableKeeps(j);
    StepTally(s, e);
    if !e.StatusDone? {
      NothingHanded(s, e);
    }
    assert SentLists(JobStep(j, e))[|SentLists(j)|..] == HandedBy(s, e) == [file];
    ReactionHands(j, e.file);
    TransmittedReactsNot(j, e.file);
    HandedIsEncoded(j, e.file);
    assert file == FileOf(s.version, LoadList(j.loads)).value;
    LoadListDecodes(s.version, j.loads);
    VersionIsAnnounced(s);
  }

  lemma HandedIsEncoded(j: Job, file: seq<byte>)
    requires Handed(j.operation, ReactionTo(j, file)) != []
    ensures FileOf(j.operation.version, LoadList(j.loads)).Some?
  {
    hide FileOf, ReadStatus;
  }

  /** The first accepted status makes the command hand over its list, unless the encoder refuses it. */
  lemma AcceptedStatusSendsTheList(j: Job, e: Event)
    requires JobReachable(j) && Expected(j, e) && e.StatusDone? && e.ok && !j.transmitted
    ensures var r, file := ReadStatus(j.operation.kind, e.file), FileOf(j.operation.version, LoadList(j.loads));
            r.Some? && r.value.code == OPERATION_ACCEPTED ==>
              && JobStep(j, e).transmitted == file.Some?
              && SentLists(JobStep(j, e)) == if file.Some? then [file.value] else []
  {
    hide TallyOf, Step, Handed, Inv, Watched, FileOf, ReadStatus, Enabled;
    JobReachableKeeps(j);
    StepTally(j.operation, e);
    ReactionHands(j, e.file);
  }

  /** No other event makes it hand over anything. */
  lemma NothingElseSends(j: Job, e: Event)
    requires JobReachable(j) && Expected(j, e)
    requires var r := if e.StatusDone? then ReadStatus(j.operation.kind, e.file) else None;
             j.transmitted || r == None || r.value.code != 0x0001
    ensures SentLists(JobStep(j, e)) == SentLists(j) && JobStep(j, e).transmitted == j.transmitted
  {
    hide TallyOf, Step, Handed, Inv, Watched, FileOf, ReadStatus, Enabled;
    JobReachableKeeps(j);
    StepTally(j.operation, e);
    if e.StatusDone? {
      ReactionHands(j, e.file);
    } else {
      NothingHanded(j.operation, e);
    }
  }

  /**
   * The operation alone prevents a second list only once the first has arrived: of two load lists submitted in a row
   * both go out unless one has arrived before or the encoder refuses them.
   */
  lemma OperationAloneSendsTwice(s: State, loads: seq<Load>)
    ensures var p := LoadList(loads);
            |TallyOf(DoSubmit(DoSubmit(s, p), p)).sentFiles| ==
            |TallyOf(s).sentFiles| + if s.sent || FileOf(s.version, p) == None then 0 else 2
  {
    hide FileOf, TallyOf;
    CallTally(s, Submit(LoadList(loads)));
    CallTally(DoSubmit(s, LoadList(loads)), Submit(LoadList(loads)));
  }

  class UploadOperationCommand {
    const operation: HostOperation
    const loads: seq<Load>
    var loadListTransmitted: bool

    ghost function View(): Job
      reads this, operation
    {
      Job(operation.View(), loads, loadListTransmitted)
    }

    constructor (target: F.TargetId, dlpTimeout: nat, loads: seq<Load>)
      ensures View() == NewJob(target, dlpTimeout, loads)
    {
      operation := new HostOperation(Upload, target, dlpTimeout);
      this.loads, loadListTransmitted := loads, false;
    }

    /** The callback for a status. */
    method Status(code: uint16) returns (threw: bool)
      modifies this, operation
      ensures operation.View() == React(old(operation.View()), Reaction(old(View()), code))
      ensures threw == ReactionThrows(old(operation.View()), Reaction(old(View()), code))
      ensures loadListTransmitted == (old(loadListTransmitted) || (Reaction(old(View()), code) != [] && !threw))
    {
      threw := false;
      ghost var calls := Reaction(View(), code);
      if code == OPERATION_ACCEPTED && !loadListTransmitted {
        var loadsList: seq<Load> := [];
        for i := 0 to |loads|
          invariant loadsList == loads[..i]
        {
          loadsList := loadsList + [loads[i]];
        }
        assert loadsList == loads && calls[1..] == [];
        threw := operation.Submit(LoadList(loadsList));
        if threw {
          return;
        }
        loadListTransmitted := true;
      }
    }
  }
}
