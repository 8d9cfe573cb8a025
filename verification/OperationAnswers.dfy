/**
 * What every event is answered with, told by the octets of the files, the letters of the names and the numbers of the
 * codes.
 */
module OperationAnswers {
  import opened Bytes
  import opened Text
  import opened Ratio
  import opened Grammar
  import opened Files
  import opened ListFiles
  import opened OperationState
  import opened OperationSafety
  import opened OperationTally
  import opened OperationTransfers
  import opened OperationWatchdog
  import S = StatusFiles
  import F = Filenames

  // ---- Reports and reasons in a history ------------------------------------------------------------------------------------------

  /** The codes of all calls of `finished`, in order. */
  function ReportedCodes(h: History): seq<int> {
    match h
    case Empty => []
    case Snoc(b, n) => if n.Finished? then ReportedCodes(b) + [n.code] else ReportedCodes(b)
  }

  /** The reasons of all accepted abort requests, in order. */
  function AcceptedReasons(h: History): seq<AbortReason> {
    match h
    case Empty => []
    case Snoc(b, n) => if n.AbortAccepted? then AcceptedReasons(b) + [n.reason] else AcceptedReasons(b)
  }

  /** Aborted by the operator, or by the data loader. */
  function NumberOf(reason: AbortReason): int {
    match reason
    case Operator => 0x1005
    case Protocol => 0x1004
    case NoAbort => 0x1004
  }

  function Numbers(reasons: seq<AbortReason>): seq<int> {
    if reasons == [] then [] else [NumberOf(reasons[0])] + Numbers(reasons[1..])
  }

  lemma {:induction false} NumbersAppend(reasons: seq<AbortReason>, reason: AbortReason)
    ensures Numbers(reasons + [reason]) == Numbers(reasons) + [NumberOf(reason)]
  {
    if reasons == [] {
      assert [reason][1..] == [];
    } else {
      NumbersAppend(reasons[1..], reason);
      assert (reasons + [reason])[1..] == reasons[1..] + [reason];
    }
  }

  // ---- Aborts and terminations ------------------------------------------------------------------------------------------------------

  lemma {:induction false} AcceptedByNumber(h: History)
    ensures AcceptedCodes(h) == Numbers(AcceptedReasons(h))
  {
    if h.Snoc? {
      AcceptedByNumber(h.before);
      if h.last.AbortAccepted? {
        NumbersAppend(AcceptedReasons(h.before), h.last.reason);
      }
    }
  }

  /**
   * In every run the numbers in the ABORT messages are, in order, 0x1005 for every accepted request of the operator
   * and 0x1004 for every one of the protocol; the last one is still to be sent exactly when a reason is stored.
   */
  lemma AbortsConservedByNumber(s: State)
    requires Reachable(s)
    ensures Numbers(AcceptedReasons(s.history)) ==
            SentCodes(s.history) + if s.abortReason == NoAbort then [] else [NumberOf(s.abortReason)]
  {
    hide Inv, Watched;
    AbortsConserved(s);
    AcceptedByNumber(s.history);
  }

  /** An abort request is accepted exactly when none is pending; it cancels the remembered initialisation. */
  lemma AbortIsAnswered(s: State, reason: AbortReason)
    requires reason != NoAbort
    ensures var t := Step(s, Called(Abort(reason)));
            if s.abortReason != NoAbort then t == s
            else
              && t.abortReason == reason && AcceptedReasons(t.history) == AcceptedReasons(s.history) + [reason]
              && NotesSince(t.history, s.history) ==
                 [AbortAccepted(reason)] + (if s.initialisation.Some? then [TransferCancelled(s.initialisation.value)] else [])
              && t == s.(abortReason := reason, history := t.history)
  {
    if s.abortReason == NoAbort {
      OneNote(s.history, AbortAccepted(reason));
      if s.initialisation.Some? {
        TwoNotes(s.history, AbortAccepted(reason), TransferCancelled(s.initialisation.value));
      }
    }
  }

  /** `terminate` reports 0x1005 for the operator and 0x1004 for every other reason, and stops timer and server. */
  lemma TerminateIsAnswered(s: State, reason: AbortReason)
    ensures var t := Step(s, Called(Terminate(reason)));
            && ReportedCodes(t.history) == ReportedCodes(s.history) + [if reason == Operator then 0x1005 else 0x1004]
            && t.timer == None && !t.serverUp && t.abortReason == s.abortReason && t.sent == s.sent
  {
  }

  function TerminationCodes(calls: seq<Call>): seq<int> {
    if calls == [] then []
    else (if calls[0].Terminate? then [NumberOf(calls[0].reason)] else []) + TerminationCodes(calls[1..])
  }

  /** What calls of the application report: terminations, and nothing else. */
  lemma CallReports(s: State, call: Call)
    ensures ReportedCodes(DoCall(s, call).history) ==
            ReportedCodes(s.history) + if call.Terminate? then [NumberOf(call.reason)] else []
    ensures var t := DoCall(s, call);
            && t.now == s.now && t.dlpTimeout == s.dlpTimeout && t.kind == s.kind
            && t.waitForFinalStatus == s.waitForFinalStatus
  {
    hide FileOf, CancelInitialisation, DoTerminate;
    CancelReports(s);
    if call.Abort? {
      CancelReports(Log(s, AbortAccepted(call.reason)).(abortReason := call.reason));
    } else if call.Terminate? {
      TerminateReports(s, call.reason);
    }
  }

  lemma TerminateReports(s: State, reason: AbortReason)
    ensures var t := DoTerminate(s, reason);
            && ReportedCodes(t.history) == ReportedCodes(s.history) + [NumberOf(reason)]
            && t.now == s.now && t.dlpTimeout == s.dlpTimeout && t.kind == s.kind
            && t.waitForFinalStatus == s.waitForFinalStatus
  {
    hide CancelInitialisation;
    CancelReports(s);
  }

  lemma {:induction false} ReactReports(s: State, calls: seq<Call>)
    requires !ReactionThrows(s, calls)
    ensures ReportedCodes(React(s, calls).history) == ReportedCodes(s.history) + TerminationCodes(calls)
    ensures var t := React(s, calls);
            t.now == s.now && t.dlpTimeout == s.dlpTimeout && t.kind == s.kind && t.waitForFinalStatus == s.waitForFinalStatus
    decreases |calls|
  {
    hide DoCall, Throws;
    if calls != [] {
      CallReports(s, calls[0]);
      ReactReports(DoCall(s, calls[0]), calls[1..]);
    }
  }

  // ---- Status files -----------------------------------------------------------------------------------------------------------------

  /** Which file an operation takes as a status file. */
  function StatusFileOf(kind: Kind): FileKind {
    match kind
    case Information => LCS
    case Upload => LUS
    case OperatorDefinedDownload => LNS
    case MediaDefinedDownload => LNS
  }

  predicate IsStatusFile(kind: Kind, file: seq<byte>) {
    DecodeFile(StatusFileOf(kind), file).Some?
  }

  /** Where the code is: behind the header, or behind header and counter. */
  function CodeAt(kind: Kind): nat {
    if kind == Information then 8 else 6
  }

  /** Where the exception timer is: behind the code, or behind code, description and counter. */
  function TimerAt(kind: Kind, file: seq<byte>): nat
    requires |file| > 8
  {
    var description: int := file[8];
    if kind == Information then 10 else 9 + description + 2
  }

  lemma WordIsRead(b: seq<byte>, i: nat)
    requires i + 2 <= |b|
    ensures GetU16(b[i..]) == Word(b, i)
  {
  }

  lemma InformationStatusOctets(file: seq<byte>)
    requires IsStatusFile(Information, file)
    ensures |file| >= 12 && ReadStatus(Information, file) == Some(StatusInfo(Word(file, 8), Word(file, 10)))
  {
    hide Parse, GetU16, DecodeHeader;
    var body := file[HEADER_SIZE..];
    LeafParsed(body);
    PairParsed(U16, Both(Status, Both(U16, Both(I16, String))), body);
    LeafParsed(body[2..]);
    PairParsed(Status, Both(U16, Both(I16, String)), body[2..]);
    LeafParsed(body[2..][2..]);
    PairParsed(U16, Both(I16, String), body[2..][2..]);
    assert body[2..] == file[8..] && body[2..][2..] == file[10..];
    WordIsRead(file, 8);
    WordIsRead(file, 10);
  }

  /** What follows code and description. */
  lemma BehindDescription(more: Grammar, file: seq<byte>, v: Value, rest: seq<byte>)
    requires |file| >= 15 && Parse(Both(Status, Both(String, more)), file[6..]) == Accept(v, rest)
    ensures var n: int := file[8];
            && 9 + n <= |file| && v.Pair? && v.a == Num(Word(file, 6)) && v.b.Pair?
            && Parse(more, file[9 + n..]) == Accept(v.b.b, rest)
  {
    hide Parse, GetU16, KnownStatus, ParseText, Word;
    var body := file[6..];
    LeafParsed(body);
    PairParsed(Status, Both(String, more), body);
    assert body[2..] == file[8..];
    LeafParsed(file[8..]);
    PairParsed(String, more, file[8..]);
    var n: int := file[8];
    TextTaken(file[8..]);
    assert file[8..][1 + n..] == file[9 + n..];
    WordIsRead(file, 6);
  }

  lemma CounterThenTimer(more: Grammar, file: seq<byte>, i: nat, v: Value, rest: seq<byte>)
    requires i <= |file| && Parse(Both(U16, Both(U16, more)), file[i..]) == Accept(v, rest)
    ensures i + 4 <= |file| && v.Pair? && v.b.Pair? && v.b.a == Num(Word(file, i + 2))
  {
    hide Parse, GetU16, Word;
    LeafParsed(file[i..]);
    PairParsed(U16, Both(U16, more), file[i..]);
    assert file[i..][2..] == file[i + 2..];
    LeafParsed(file[i + 2..]);
    PairParsed(U16, more, file[i + 2..]);
    WordIsRead(file, i + 2);
  }

  lemma ListStatusOctets(g: Grammar, entry: Grammar, file: seq<byte>, v: Value, rest: seq<byte>)
    requires |file| >= 15 && g == StatusList(entry) && Parse(g, file[6..]) == Accept(v, rest)
    ensures |file| >= TimerAt(Upload, file) + 2
    ensures v.Pair? && v.a == Num(Word(file, 6))
    ensures v.b.Pair? && v.b.b.Pair? && v.b.b.b.Pair? && v.b.b.b.a == Num(Word(file, TimerAt(Upload, file)))
  {
    hide Parse, Word;
    var n: int := file[8];
    var more := Both(I16, Both(Percentage, Counted(entry)));
    BehindDescription(Both(U16, Both(U16, more)), file, v, rest);
    CounterThenTimer(more, file, 9 + n, v.b.b, rest);
  }

  lemma TextTaken(b: seq<byte>)
    requires ParseText(b).GoodText?
    ensures var n: int := b[0]; 1 + n <= |b| && ParseText(b).rest == b[1 + n..]
  {
  }

  /** Code and exception timer are the numbers at these places of the file. */
  lemma StatusOctets(kind: Kind, file: seq<byte>)
    requires IsStatusFile(kind, file)
    ensures |file| >= 12 && |file| >= TimerAt(kind, file) + 2
    ensures ReadStatus(kind, file) == Some(StatusInfo(Word(file, CodeAt(kind)), Word(file, TimerAt(kind, file))))
  {
    hide Parse, GetU16, KnownStatus, DecodeHeader;
    match kind {
      case Information => InformationStatusOctets(file);
      case Upload => ListStatusOctets(Body(LUS), LoadStatus(), file, DecodeFile(LUS, file).value.value, []);
      case _ => ListStatusOctets(Body(LNS), FileStatus(), file, DecodeFile(LNS, file).value.value, []);
    }
  }

  /** The numbers of the ten codes. */
  lemma StatusNumbers(kind: Kind, file: seq<byte>)
    requires IsStatusFile(kind, file)
    ensures |file| >= 12 && Word(file, CodeAt(kind)) in
            {0x0001, 0x0002, 0x0003, 0x0004, 0x1000, 0x1002, 0x1003, 0x1004, 0x1005, 0x1007}
  {
    hide DecodeFile, ReadStatus;
    StatusOctets(kind, file);
  }

  predicate Ends(t: State) {
    t.timer == None && !t.serverUp
  }

  /** The answers to the ten codes, from the reports `before` on. */
  predicate StatusAnswers(s: State, t: State, before: seq<int>, code: int, exceptionTimer: int) {
    && (code in {0x1000, 0x1002, 0x0003, 0x1003, 0x1004, 0x1005} ==>
          ReportedCodes(t.history) == before + [code] && Ends(t))
    && (code == 0x1007 ==> ReportedCodes(t.history) == before + [0x1004] && Ends(t))
    && (code in {0x0001, 0x0002, 0x0004} ==>
          && ReportedCodes(t.history) == before && t.timer.Some?
          && exceptionTimer >= 0
          && IsDeadline(s.now, if code == 0x0001 then 0 else exceptionTimer, s.dlpTimeout, t.timer.value))
    && (s.kind == Information ==>
          t.waitForFinalStatus == (s.waitForFinalStatus || code in {0x0001, 0x0002, 0x0004}))
  }

  lemma TakenStatusAnswers(s: State, status: StatusInfo, file: seq<byte>)
    requires KnownStatus(status.code)
    ensures StatusAnswers(s, TakeStatus(s, status, file), ReportedCodes(s.history), status.code, status.exceptionTimer)
  {
    hide Finish;
    var s1 := Log(s, StatusTaken(file));
    LastReport(s1, status.code, TargetStatus);
    LastReport(s1, OPERATION_ABORTED_BY_DLP, UnknownStatus);
  }

  /**
   * A delivered status file whose handler does not throw: the six final codes are reported as they are, exactly once,
   * and stop timer and server; a failed part number or file is reported as 0x1004; the other three report nothing and
   * arm the timer, an accepted one without the exception timer of the file. What the handler terminates comes before.
   */
  lemma StatusIsAnswered(s: State, id: Id, file: seq<byte>, calls: seq<Call>)
    requires Reachable(s) && id in s.world.statuses
    ensures IsStatusFile(s.kind, file) ==> |file| >= 12 && |file| >= TimerAt(s.kind, file) + 2
    ensures IsStatusFile(s.kind, file) && !ReactionThrows(StatusOver(s, id), calls) ==>
              StatusAnswers(s, Step(s, StatusDone(id, true, file, calls)),
                            ReportedCodes(s.history) + TerminationCodes(calls),
                            Word(file, CodeAt(s.kind)), Word(file, TimerAt(s.kind, file)))
  {
    hide Reachable, Inv, Watched, ReadStatus, DecodeFile, KnownStatus, ReactionThrows, React, TakeStatus, StatusOver, Removed,
         StatusFileCompleted, StatusAnswers, IsStatusFile, ReportedCodes;
    ReachableKeeps(s);
    StatusIsInitiated(s, id);
    if IsStatusFile(s.kind, file) {
      StatusOctets(s.kind, file);
      if !ReactionThrows(StatusOver(s, id), calls) {
        var r := React(StatusOver(s, id), calls);
        StatusIsTaken(s, id, file, calls);
        OverReports(s, id);
        ReactReports(StatusOver(s, id), calls);
        TakenStatusAnswers(r, ReadStatus(s.kind, file).value, file);
        SameClock(r, s, Step(s, StatusDone(id, true, file, calls)), ReportedCodes(r.history), Word(file, CodeAt(s.kind)),
                  Word(file, TimerAt(s.kind, file)));
      }
    }
  }

  lemma SameClock(r: State, s: State, t: State, before: seq<int>, code: int, exceptionTimer: int)
    requires StatusAnswers(r, t, before, code, exceptionTimer)
    requires r.now == s.now && r.dlpTimeout == s.dlpTimeout && r.kind == s.kind && r.waitForFinalStatus == s.waitForFinalStatus
    ensures StatusAnswers(s, t, before, code, exceptionTimer)
  {
  }

  lemma OverReports(s: State, id: Id)
    ensures forall t <- [InitialisationOver(s, id), StatusOver(s, id), ListOver(s, id), ClientOver(s, id)] ::
              && ReportedCodes(t.history) == ReportedCodes(s.history) && AcceptedReasons(t.history) == AcceptedReasons(s.history)
              && t.now == s.now && t.dlpTimeout == s.dlpTimeout && t.kind == s.kind
              && t.waitForFinalStatus == s.waitForFinalStatus && t.timer == s.timer && t.serverUp == s.serverUp
              && t.abortReason == s.abortReason && t.sent == s.sent && t.initialisation == (if t == InitialisationOver(s, id) then None else s.initialisation)
  {
    hide Without;
  }

  /**
   * A status transfer that fails is reported as 0x1004; octets that are no status file change nothing; after a handler
   * that throws nothing is done any more.
   */
  lemma BadStatusIsAnswered(s: State, id: Id, ok: bool, file: seq<byte>, calls: seq<Call>)
    requires Reachable(s) && id in s.world.statuses
    requires ok && IsStatusFile(s.kind, file) ==> ReactionThrows(StatusOver(s, id), calls)
    ensures var t := Step(s, StatusDone(id, ok, file, calls));
            && (!ok ==> ReportedCodes(t.history) == ReportedCodes(s.history) + [0x1004] && Ends(t))
            && (ok && !IsStatusFile(s.kind, file) ==>
                  t == StatusOver(s, id) && ReportedCodes(t.history) == ReportedCodes(s.history))
            && (ok && IsStatusFile(s.kind, file) ==> t == React(StatusOver(s, id), calls))
  {
    hide Reachable, Inv, Watched, ReadStatus, DecodeFile, KnownStatus, StatusOver, Removed, React, ReactionThrows, TakeStatus;
    ReachableKeeps(s);
    StatusIsInitiated(s, id);
    OverReports(s, id);
  }

  /**
   * A completion that belongs to no remembered status transfer, which no run brings about, is reported as 0x1004; an
   * information operation leaves it at that, the others go on as if it did.
   */
  lemma UninitiatedIsAnswered(s: State, id: Id, ok: bool, file: seq<byte>, calls: seq<Call>)
    requires id !in s.statusTransfers
    ensures var t, before := Step(s, StatusDone(id, ok, file, calls)), ReportedCodes(s.history) + [0x1004];
            && (s.kind == Information || (ok && !IsStatusFile(s.kind, file)) ==>
                  ReportedCodes(t.history) == before && Ends(t))
            && (s.kind != Information && !ok ==> ReportedCodes(t.history) == before + [0x1004] && Ends(t))
            && (s.kind != Information && ok && IsStatusFile(s.kind, file) ==>
                  t == StatusReceived(Finish(StatusOver(s, id), 0x1004, TransferNotInitiated), ok, file, calls))
  {
    hide ReadStatus, DecodeFile, KnownStatus, StatusOver, React, ReactionThrows, TakeStatus, Removed;
    NoneIsRemoved(s.statusTransfers, id);
    OverReports(s, id);
  }

  /** Removing a transfer from the list leaves no occurrence of it and all others, and the count is the difference. */
  lemma {:induction false} RemovalIsComplete(ids: seq<Id>, id: Id)
    ensures id !in Without(ids, id) && |Without(ids, id)| + Removed(ids, id) == |ids|
    ensures forall x <- ids :: x != id ==> x in Without(ids, id)
    ensures Removed(ids, id) == multiset(ids)[id]
  {
    if ids != [] {
      RemovalIsComplete(ids[1..], id);
      assert ids == [ids[0]] + ids[1..];
    }
  }

  lemma {:induction false} NoneIsRemoved(ids: seq<Id>, id: Id)
    requires id !in ids
    ensures Removed(ids, id) == 0
  {
    if ids != [] {
      NoneIsRemoved(ids[1..], id);
    }
  }

  // ---- Initialisation, lists, client transfers, timer, start ----------------------------------------------------------------------------

  lemma AcceptanceOctets(file: seq<byte>)
    requires DecodeFile(INIT, file).Some?
    ensures |file| >= 9 && AcceptanceCode(file) == Word(file, 6) && Word(file, 6) in {0x0001, 0x1000, 0x1002}
    ensures DecodeFile(INIT, file).value.version == Word(file, 4)
  {
    hide DecodeHeader;
    AcceptedIff(INIT, file);
    WordIsRead(file, 6);
  }

  lemma InitialisationEnds(s: State, threw: bool, file: seq<byte>)
    requires DecodeFile(INIT, file).Some?
    ensures var t, code, before := TakeInitialisation(s, threw, file), AcceptanceCode(file), ReportedCodes(s.history);
            if threw then ReportedCodes(t.history) == before + [0x1004] && Ends(t) && t.version == s.version
            else if code == 0x0001 then
              && ReportedCodes(t.history) == before && t.version == DecodeFile(INIT, file).value.version
              && t.timer.Some? && IsDeadline(s.now, 0, s.dlpTimeout, t.timer.value)
            else if code == 0x1000 || code == 0x1002 then
              ReportedCodes(t.history) == before + [code] && Ends(t) && t.version == s.version
            else true
  {
    hide DecodeFile, AcceptanceCode;
  }

  /**
   * A delivered initialisation file whose handler does not throw: 0x0001 reports nothing, takes over the version of
   * the file and arms the timer with the configured timeout; 0x1000 and 0x1002 are reported as they are. If the
   * transfer or the decoder fails, 0x1004 is reported and the handler is not called.
   */
  lemma InitialisationIsAnswered(s: State, id: Id, ok: bool, file: seq<byte>, calls: seq<Call>)
    ensures var t := Step(s, InitialisationDone(id, ok, file, calls));
            var before := ReportedCodes(s.history) + TerminationCodes(calls);
            if !ok || DecodeFile(INIT, file) == None then
              ReportedCodes(t.history) == ReportedCodes(s.history) + [0x1004] && Ends(t) && t.version == s.version
            else
              && |file| >= 9
              && (!ReactionThrows(InitialisationOver(s, id), calls) ==>
                    && (Word(file, 6) == 0x0001 ==>
                          && ReportedCodes(t.history) == before && t.version == Word(file, 4)
                          && t.timer.Some? && IsDeadline(s.now, 0, s.dlpTimeout, t.timer.value))
                    && (Word(file, 6) != 0x0001 ==>
                          && Word(file, 6) in {0x1000, 0x1002}
                          && ReportedCodes(t.history) == before + [Word(file, 6)] && Ends(t)))
              && (ReactionThrows(InitialisationOver(s, id), calls) ==>
                    && ReportedCodes(t.history) == ReportedCodes(React(InitialisationOver(s, id), calls).history) + [0x1004]
                    && Ends(t))
  {
    hide DecodeFile, AcceptanceCode, ReactionThrows, React, TakeInitialisation, InitialisationOver, ReportedCodes;
    var s0 := InitialisationOver(s, id);
    OverReports(s, id);
    VersionStays(s, id);
    LastReport(s0, OPERATION_ABORTED_BY_DLP, InitialisationFailed);
    if ok && DecodeFile(INIT, file).Some? {
      AcceptanceOctets(file);
      InitialisationEnds(React(s0, calls), ReactionThrows(s0, calls), file);
      if !ReactionThrows(s0, calls) {
        ReactReports(s0, calls);
      }
    }
  }

  lemma LastReport(s: State, code: uint16, cause: Cause)
    ensures var t := Finish(s, code, cause); ReportedCodes(t.history) == ReportedCodes(s.history) + [code] && Ends(t)
    ensures Finish(s, code, cause).waitForFinalStatus == s.waitForFinalStatus
  {
  }

  lemma VersionStays(s: State, id: Id)
    ensures InitialisationOver(s, id).version == s.version
  {
  }

  /** A list was taken, or it failed; `before` are the reports so far. */
  lemma ListEnds(s: State, file: seq<byte>)
    ensures var t, f, before := TakeList(s, file), ListFailed(s), ReportedCodes(s.history);
            && (s.kind != Information ==>
                  && ReportedCodes(t.history) == before && t.timer == s.timer && t.serverUp == s.serverUp)
            && (s.kind == Information && !s.waitForFinalStatus ==>
                  && ReportedCodes(t.history) == before + [0x0003] && Ends(t)
                  && ReportedCodes(f.history) == before + [0x1004] && Ends(f))
            && (s.kind == Information && s.waitForFinalStatus ==>
                  && ReportedCodes(t.history) == before
                  && t.timer.Some? && IsDeadline(s.now, 0, s.dlpTimeout, t.timer.value))
            && (s.kind != Information || s.waitForFinalStatus ==>
                  && ReportedCodes(f.history) == before && f.timer == s.timer && f.serverUp == s.serverUp
                  && f.abortReason == (if s.abortReason == NoAbort then Protocol else s.abortReason))
  {
    hide CancelInitialisation;
    CancelReports(s);
    CancelReports(Log(s, AbortAccepted(Protocol)).(abortReason := Protocol));
  }

  lemma CancelReports(s: State)
    ensures var t := CancelInitialisation(s); t == s.(history := t.history) && ReportedCodes(t.history) == ReportedCodes(s.history)
    ensures AcceptedReasons(CancelInitialisation(s).history) == AcceptedReasons(s.history)
  {
  }

  predicate IsListFile(kind: Kind, file: seq<byte>) {
    DecodeFile(if kind == Information then LCL else LNL, file).Some?
  }

  /**
   * A good list file whose handler does not throw: in an information operation without any progress status before,
   * 0x0003 is reported; after one, the timer is armed; another operation only calls its handler.
   */
  lemma GoodListIsAnswered(s: State, id: Id, file: seq<byte>, calls: seq<Call>)
    requires IsListFile(s.kind, file) && !ReactionThrows(ListOver(s, id), calls)
    ensures var t := Step(s, ListDone(id, true, file, calls));
            var before := ReportedCodes(s.history) + TerminationCodes(calls);
            && (s.kind == Information && !s.waitForFinalStatus ==>
                  ReportedCodes(t.history) == before + [0x0003] && Ends(t))
            && (s.kind == Information && s.waitForFinalStatus ==>
                  && ReportedCodes(t.history) == before
                  && t.timer.Some? && IsDeadline(s.now, 0, s.dlpTimeout, t.timer.value))
            && (s.kind != Information ==> ReportedCodes(t.history) == before)
  {
    hide DecodeFile, ReactionThrows, React, TakeList, ListOver, ReportedCodes;
    var s0 := ListOver(s, id);
    OverReports(s, id);
    ReactReports(s0, calls);
    ListEnds(React(s0, calls), file);
  }

  /**
   * A list file that does not arrive or cannot be read, or whose handler throws: in an information operation without
   * any progress status before, 0x1004 is reported; otherwise an abort is requested.
   */
  lemma BadListIsAnswered(s: State, id: Id, ok: bool, file: seq<byte>, calls: seq<Call>)
    requires ok && IsListFile(s.kind, file) ==> ReactionThrows(ListOver(s, id), calls)
    ensures var t := Step(s, ListDone(id, ok, file, calls));
            var r := if ok && IsListFile(s.kind, file) then React(ListOver(s, id), calls) else ListOver(s, id);
            && r.waitForFinalStatus == s.waitForFinalStatus
            && (s.kind == Information && !s.waitForFinalStatus ==>
                  ReportedCodes(t.history) == ReportedCodes(r.history) + [0x1004] && Ends(t))
            && (s.kind != Information || s.waitForFinalStatus ==>
                  && ReportedCodes(t.history) == ReportedCodes(r.history) && t.timer == r.timer && t.serverUp == r.serverUp
                  && t.abortReason == (if r.abortReason == NoAbort then Protocol else r.abortReason))
  {
    hide DecodeFile, ReactionThrows, React, ListFailed, ListOver, ReportedCodes, TallyOf;
    var s0 := ListOver(s, id);
    OverReports(s, id);
    ReactNotArmed(s0, calls);
    ListEnds(s0, file);
    ListEnds(React(s0, calls), file);
  }

  /** A load list, answer or request that has arrived is marked as sent; one that has failed requests an abort. */
  lemma ClientIsAnswered(s: State, id: Id, ok: bool)
    ensures var t := Step(s, ClientDone(id, ok));
            && ReportedCodes(t.history) == ReportedCodes(s.history) && t.timer == s.timer && t.serverUp == s.serverUp
            && (ok ==> t.sent && t.abortReason == s.abortReason && AcceptedReasons(t.history) == AcceptedReasons(s.history))
            && (!ok ==>
                  && t.sent == s.sent
                  && (s.abortReason != NoAbort ==> t.abortReason == s.abortReason)
                  && (s.abortReason == NoAbort ==>
                        t.abortReason == Protocol && AcceptedReasons(t.history) == AcceptedReasons(s.history) + [Protocol]))
  {
    hide DoAbort, ReportedCodes, AcceptedReasons, ClientOver, NotesSince;
    var s0 := ClientOver(s, id);
    OverReports(s, id);
    AbortIsAnswered(s0, Protocol);
    CallReports(s0, Abort(Protocol));
  }

  /** An expired or failed timer is reported as 0x1004. */
  lemma TimerIsAnswered(s: State, e: Event)
    requires e.TimerExpired? || e.TimerFailed?
    ensures var t := Step(s, e); ReportedCodes(t.history) == ReportedCodes(s.history) + [0x1004] && Ends(t)
  {
  }

  /** Start begins one initialisation transfer and remembers it, and forgets what the run before has seen or sent. */
  lemma StartIsAnswered(s: State)
    ensures var t := Step(s, StartRequested);
            && t.serverUp && t.initialisation == Some(s.nextId)
            && t.world == s.world.(initialisations := s.world.initialisations + {s.nextId})
            && (if s.kind == Information then !t.waitForFinalStatus else !t.sent)
            && ReportedCodes(t.history) == ReportedCodes(s.history) && t.timer == s.timer && t.abortReason == s.abortReason
            && t.version == s.version && t.statusTransfers == s.statusTransfers && t.listTransfer == s.listTransfer
  {
  }

  // ---- What is sent to the target ------------------------------------------------------------------------------------------------------

  /** Answer and request as the target reads them in a supported version; for load lists see the upload command. */
  lemma SubmittedIsReadable(version: uint16, files: seq<Chars>, data: seq<byte>)
    requires Supported(version)
    ensures FileOf(version, Answer(files)).Some? ==>
              DecodeFile(LNA, FileOf(version, Answer(files)).value) == Some(File(version, NamesValue(Cut(files))))
    ensures FileOf(version, Request(files, data)).Some? ==>
              DecodeFile(LNR, FileOf(version, Request(files, data)).value) == Some(File(version, RequestValue(Cut(files), data)))
  {
    hide DecodeFile, Fits, Encodable, CodesKnown, Trim, EncodeFile;
    ValuesFit([], files, data);
    CutNames(files, data);
    if Encodable(Body(LNA), NamesValue(files)) {
      Readable(LNA, version, NamesValue(files));
    }
    if Encodable(Body(LNR), RequestValue(files, data)) {
      Readable(LNR, version, RequestValue(files, data));
    }
    RefusedIsNone(LNA, version, NamesValue(files));
    RefusedIsNone(LNR, version, RequestValue(files, data));
  }

  lemma RefusedIsNone(k: FileKind, version: uint16, v: Value)
    requires Fits(Body(k), v)
    ensures EncodeFile(k, version, v).Some? <==> Encodable(Body(k), v)
  {
    hide Fits, Encodable;
  }

  lemma Readable(k: FileKind, version: uint16, v: Value)
    requires Supported(version) && k != LCL && Fits(Body(k), v) && Encodable(Body(k), v) && CodesKnown(Body(k), v)
    ensures EncodeFile(k, version, v).Some?
    ensures DecodeFile(k, EncodeFile(k, version, v).value) == Some(File(version, Trim(Body(k), v)))
  {
    hide DecodeFile, Fits, Encodable, CodesKnown, Trim;
    FileRoundTrip(k, version, v);
    LengthNeverTruncates(k, version, v);
    MinimumIsMet(k, version, v);
  }

  /** The names up to their first NUL. */
  function Cut(names: seq<Chars>): (r: seq<Chars>)
    ensures |r| == |names| && forall i :: 0 <= i < |r| ==> r[i] == CutAtNul(names[i])
  {
    seq(|names|, i requires 0 <= i < |names| => CutAtNul(names[i]))
  }

  lemma CutNames(files: seq<Chars>, data: seq<byte>)
    requires Fits(Body(LNA), NamesValue(files)) && Fits(Body(LNR), RequestValue(files, data))
    ensures CodesKnown(Body(LNA), NamesValue(files)) && CodesKnown(Body(LNR), RequestValue(files, data))
    ensures Trim(Body(LNA), NamesValue(files)) == NamesValue(Cut(files))
    ensures Trim(Body(LNR), RequestValue(files, data)) == RequestValue(Cut(files), data)
  {
    var vs := NameValues(files);
    forall i | 0 <= i < |files| ensures Trim(String, vs[i]) == NameValues(Cut(files))[i] {
    }
    assert Trim(Body(LNA), NamesValue(files)).items == NameValues(Cut(files));
    assert Trim(Counted(String), NamesValue(files)) == NamesValue(Cut(files));
  }

  /** Only uploads take load lists, only operator-defined downloads answers, only media-defined ones requests. */
  lemma WhatCanBeSubmitted(s: State, p: Payload)
    ensures Enabled(s, Called(Submit(p))) <==>
            match p
            case LoadList(_) => s.kind == Upload
            case Answer(_) => s.kind == OperatorDefinedDownload
            case Request(_, _) => s.kind == MediaDefinedDownload
  {
    assert Submit(p) in CallsIn(Called(Submit(p)));
  }

  /** What is submitted goes out once, as it is encoded for the announced version, unless one has arrived before. */
  lemma SubmissionIsAnswered(s: State, p: Payload)
    ensures var t, file := Step(s, Called(Submit(p))), FileOf(s.version, p);
            if s.sent || file == None then t == s
            else
              && t.clientTransfer == Some(s.nextId) && t.nextId == s.nextId + 1
              && t.world == s.world.(clients := s.world.clients + {s.nextId})
              && t.history == Snoc(s.history, TransferBegun(s.nextId, ClientTransfer, file.value))
              && t.sent == s.sent && t.timer == s.timer && t.serverUp == s.serverUp && t.abortReason == s.abortReason
  {
    hide FileOf;
  }

  // ---- Requests -------------------------------------------------------------------------------------------------------------------------

  /** A valid name of another target. */
  ghost predicate OthersName(s: State, filename: string) {
    exists f: F.ProtocolFilename ::
      F.Compliant(f.targetId) && f.fileType != F.Invalid && f.targetId != s.target && filename == F.PrintFilename(f)
  }

  lemma OthersAreForeign(s: State, filename: string)
    ensures OthersName(s, filename) <==> Foreign(s, filename)
  {
    hide F.PrintFilename, F.ParseFilename, F.IsProtocolFilename;
    if OthersName(s, filename) {
      var f: F.ProtocolFilename :|
        F.Compliant(f.targetId) && f.fileType != F.Invalid && f.targetId != s.target && filename == F.PrintFilename(f);
      F.PrintThenParse(f);
    }
    if Foreign(s, filename) {
      F.ParseThenPrint(filename);
    }
  }

  /** What follows the first dot. */
  function Suffix(filename: string): string {
    F.Split(filename, '.').1
  }

  predicate Refused(s: State, t: State, remote: nat) {
    t == s.(history := Snoc(s.history, ErrorSent(remote)))
  }

  predicate PassedOn(s: State, t: State, remote: nat, filename: string) {
    t == s.(history := Snoc(s.history, FileRequested(remote, filename)))
  }

  /** A status transfer begins, or a pending abort is sent instead, with its number, and the timer is armed. */
  predicate StatusFollows(s: State, t: State, remote: nat) {
    if s.abortReason == NoAbort then
      t == s.(nextId := s.nextId + 1, statusTransfers := [s.nextId] + s.statusTransfers,
              world := s.world.(statuses := s.world.statuses + {s.nextId}),
              history := Snoc(s.history, TransferBegun(s.nextId, StatusTransfer, [])))
    else
      && t.timer.Some? && IsDeadline(s.now, 0, s.dlpTimeout, t.timer.value)
      && t == s.(abortReason := NoAbort, timer := t.timer,
                 history := Snoc(Snoc(s.history, AbortSent(remote, if s.abortReason == Operator then 0x1005 else 0x1004)),
                                 Armed(s.now, 0)))
  }

  /** A list transfer begins; the one that is remembered is cancelled. */
  predicate ListFollows(s: State, t: State) {
    t == s.(nextId := s.nextId + 1, listTransfer := Some(s.nextId),
            world := s.world.(lists := s.world.lists + {s.nextId}),
            history := Snoc(if s.listTransfer == None then s.history else Snoc(s.history, TransferCancelled(s.listTransfer.value)),
                            TransferBegun(s.nextId, ListTransfer, [])))
  }

  lemma StatusRequestFollows(s: State, remote: nat)
    ensures StatusFollows(s, StatusFileRequest(s, remote), remote)
  {
  }

  lemma ListRequestFollows(s: State)
    ensures ListFollows(s, ListFileRequest(s))
  {
  }

  /** Which extension stands for which of the files that operations look for. */
  lemma SoughtExtensions(filename: string)
    ensures var fileType := F.ParseFilename(filename).fileType;
            && (fileType == F.LoadConfigurationList <==> Suffix(filename) == "LCL")
            && (fileType == F.LoadConfigurationStatus <==> Suffix(filename) == "LCS")
            && (fileType == F.UploadStatus <==> Suffix(filename) == "LUS")
            && (fileType == F.DownloadStatus <==> Suffix(filename) == "LNS")
            && (fileType == F.OperatorDefinedDownloadList <==> Suffix(filename) == "LNL")
  {
    hide F.Split, F.ParseTargetId;
  }

  /** An information operation refuses everything but writes, and goes on; it looks for LCL and LCS. */
  lemma InformationRequests(s: State, remote: nat, request: RequestType, filename: string)
    requires s.kind == Information && !OthersName(s, filename)
    ensures var t := Step(s, Requested(remote, request, filename));
            var r := if request == Write then s else s.(history := Snoc(s.history, ErrorSent(remote)));
            && (Suffix(filename) == "LCL" ==> ListFollows(r, t))
            && (Suffix(filename) == "LCS" ==> StatusFollows(r, t, remote))
            && (Suffix(filename) != "LCL" && Suffix(filename) != "LCS" ==> Refused(r, t, remote))
  {
    hide OthersName, Foreign, F.ParseFilename, Suffix, StatusFileRequest, ListFileRequest, StatusFollows, ListFollows;
    OthersAreForeign(s, filename);
    SoughtExtensions(filename);
    var r := if request == Write then s else s.(history := Snoc(s.history, ErrorSent(remote)));
    StatusRequestFollows(r, remote);
    ListRequestFollows(r);
  }

  /** An upload passes every read on and refuses every write but that of an LUS. */
  lemma UploadRequests(s: State, remote: nat, request: RequestType, filename: string)
    requires s.kind == Upload && !OthersName(s, filename)
    ensures var t := Step(s, Requested(remote, request, filename));
            && (request == Read ==> PassedOn(s, t, remote, filename))
            && (request == Write && Suffix(filename) == "LUS" ==> StatusFollows(s, t, remote))
            && (request == Write && Suffix(filename) != "LUS" ==> Refused(s, t, remote))
            && (request == InvalidRequest ==> t == s)
  {
    hide OthersName, Foreign, F.ParseFilename, Suffix, StatusFileRequest, StatusFollows;
    OthersAreForeign(s, filename);
    SoughtExtensions(filename);
    StatusRequestFollows(s, remote);
  }

  /** A download refuses every read; it looks for LNS, the operator-defined one for LNL too, and passes other writes on. */
  lemma DownloadRequests(s: State, remote: nat, request: RequestType, filename: string)
    requires (s.kind == OperatorDefinedDownload || s.kind == MediaDefinedDownload) && !OthersName(s, filename)
    ensures var t := Step(s, Requested(remote, request, filename));
            var list := s.kind == OperatorDefinedDownload && Suffix(filename) == "LNL";
            && (request == Read ==> Refused(s, t, remote))
            && (request == Write && Suffix(filename) == "LNS" ==> StatusFollows(s, t, remote))
            && (request == Write && list ==> ListFollows(s, t))
            && (request == Write && Suffix(filename) != "LNS" && !list ==> PassedOn(s, t, remote, filename))
            && (request == InvalidRequest ==> t == s)
  {
    hide OthersName, Foreign, F.ParseFilename, Suffix, StatusFileRequest, ListFileRequest, StatusFollows, ListFollows;
    OthersAreForeign(s, filename);
    SoughtExtensions(filename);
    StatusRequestFollows(s, remote);
    ListRequestFollows(s);
  }

  /** The requests that reach the handler: reads of an upload, and writes of a download that it does not look for itself. */
  predicate IsForHandler(kind: Kind, request: RequestType, suffix: string) {
    || (kind == Upload && request == Read)
    || (kind == OperatorDefinedDownload && request == Write && suffix != "LNS" && suffix != "LNL")
    || (kind == MediaDefinedDownload && request == Write && suffix != "LNS")
  }

  /** The handler is called back if and only if the name is no valid one of another target and the request is for it. */
  lemma CallbackIff(s: State, remote: nat, request: RequestType, filename: string)
    ensures PassedOn(s, Step(s, Requested(remote, request, filename)), remote, filename) <==>
            !OthersName(s, filename) && IsForHandler(s.kind, request, Suffix(filename))
  {
    hide Step, OthersName, Suffix;
    if OthersName(s, filename) {
      OthersAreRefused(s, remote, request, filename);
    } else {
      match s.kind {
        case Information => InformationRequests(s, remote, request, filename);
        case Upload => UploadRequests(s, remote, request, filename);
        case _ => DownloadRequests(s, remote, request, filename);
      }
    }
  }

  lemma OthersAreRefused(s: State, remote: nat, request: RequestType, filename: string)
    requires OthersName(s, filename)
    ensures Refused(s, Step(s, Requested(remote, request, filename)), remote)
  {
    hide OthersName, Foreign, F.ParseFilename, StatusFileRequest, ListFileRequest;
    OthersAreForeign(s, filename);
  }

  // ---- A run that completes ----------------------------------------------------------------------------------------------------------------

  /** An upload status with this code and nothing else in it. */
  function BareStatus(code: uint16): Value {
    S.StatusValue(S.Head(code, [], 0, 0, 0, 0), [])
  }

  lemma BareStatusFile(code: uint16)
    requires KnownStatus(code)
    ensures Fits(Body(LUS), BareStatus(code)) && EncodeFile(LUS, VERSION_A4, BareStatus(code)).Some?
    ensures var file := EncodeFile(LUS, VERSION_A4, BareStatus(code)).value;
            IsStatusFile(Upload, file) && |file| >= 12 && Word(file, 6) == code
  {
    hide Fits, Encodable, Print, CodesKnown, Trim, DecodeFile, PutI16, RatioBytes;
    var v := BareStatus(code);
    S.StatusPrinted(LoadStatus(), S.Head(code, [], 0, 0, 0, 0), []);
    CountedPrinted(LoadStatus(), []);
    assert AllPrintable(LoadStatus(), []);
    BareStatusIsKnown(code);
    Readable(LUS, VERSION_A4, v);
    var file := EncodeFile(LUS, VERSION_A4, v).value;
    MinimumIsMet(LUS, VERSION_A4, v);
    assert file[6] == PutU16(code)[0] && file[7] == PutU16(code)[1];
  }

  lemma BareStatusIsKnown(code: uint16)
    requires KnownStatus(code) && Fits(Body(LUS), BareStatus(code))
    ensures CodesKnown(Body(LUS), BareStatus(code))
  {
    hide KnownStatus, Fits, CodesKnown, Encodable, Print;
    var v, g := BareStatus(code), LoadStatus();
    LeavesAreKnown(code, g);
    PairPrinted(Percentage, S.Tail(g, 6), v.b.b.b.b.b.a, v.b.b.b.b.b.b);
    PairPrinted(I16, S.Tail(g, 5), v.b.b.b.b.a, v.b.b.b.b.b);
    PairPrinted(U16, S.Tail(g, 4), v.b.b.b.a, v.b.b.b.b);
    PairPrinted(U16, S.Tail(g, 3), v.b.b.a, v.b.b.b);
    PairPrinted(String, S.Tail(g, 2), v.b.a, v.b.b);
    PairPrinted(Status, S.Tail(g, 1), v.a, v.b);
  }

  lemma LeavesAreKnown(code: uint16, g: Grammar)
    requires KnownStatus(code)
    ensures Fits(Status, Num(code)) && CodesKnown(Status, Num(code))
    ensures Fits(String, Str([])) && CodesKnown(String, Str([]))
    ensures forall leaf <- [U16, I16, Percentage] :: Fits(leaf, Num(0)) && CodesKnown(leaf, Num(0))
    ensures Fits(Counted(g), List([])) && CodesKnown(Counted(g), List([]))
  {
  }

  /** Start, a status request, and this status file. */
  function StatusRun(target: F.TargetId, dlpTimeout: nat, remote: nat, file: seq<byte>): seq<Event> {
    [StartRequested, Requested(remote, Write, OwnName(Initial(Upload, target, dlpTimeout), F.UploadStatus)),
     StatusDone(1, true, file, [])]
  }

  lemma StatusRunIsAnswered(target: F.TargetId, dlpTimeout: nat, remote: nat, file: seq<byte>)
    requires F.Compliant(target) && |file| >= 12 && Word(file, 6) == 0x0003
    ensures var s, es := Initial(Upload, target, dlpTimeout), StatusRun(target, dlpTimeout, remote, file);
            Possible(s, es) && (IsStatusFile(Upload, file) ==> ReportedCodes(After(s, es).history) == [0x0003])
  {
    hide Step, Enabled, After, Possible, OwnName, Start, StatusFileRequest, IsStatusFile, ReportedCodes, Reachable, StatusOver;
    var s := Initial(Upload, target, dlpTimeout);
    var request := Requested(remote, Write, OwnName(s, F.UploadStatus));
    var done := StatusDone(1, true, file, []);
    StartStep(s);
    SameName(s, Start(s), F.UploadStatus);
    StatusRequestStep(Start(s), remote);
    AndThen(s, [StartRequested], request);
    var s2 := StatusFileRequest(Start(s), remote);
    assert [StartRequested] + [request] == [StartRequested, request];
    RunIsReachable(Upload, target, dlpTimeout, [StartRequested, request]);
    NothingReported(s, remote);
    DoneIsEnabled(s2, file);
    AndThen(s, [StartRequested, request], done);
    CompletedIsReported(s2, file);
    assert [StartRequested, request] + [done] == [StartRequested, request, done];
  }

  lemma CompletedIsReported(s: State, file: seq<byte>)
    requires Reachable(s) && s.kind == Upload && 1 in s.world.statuses && ReportedCodes(s.history) == []
    requires |file| >= 12 && Word(file, 6) == 0x0003
    ensures IsStatusFile(Upload, file) ==> ReportedCodes(Step(s, StatusDone(1, true, file, [])).history) == [0x0003]
  {
    hide Step, Reachable, IsStatusFile, ReportedCodes, StatusOver;
    StatusIsAnswered(s, 1, file, []);
  }

  /** A new upload whose target delivers a status file with code 0x0003 reports exactly that, and there is such a file. */
  lemma AnUploadCompletes(target: F.TargetId, dlpTimeout: nat, remote: nat)
    requires F.Compliant(target)
    ensures exists file ::
              var s, es := Initial(Upload, target, dlpTimeout), StatusRun(target, dlpTimeout, remote, file);
              Possible(s, es) && ReportedCodes(After(s, es).history) == [0x0003]
  {
    hide After, Possible, StatusRun, IsStatusFile, ReportedCodes, BareStatus, EncodeFile;
    BareStatusFile(0x0003);
    StatusRunIsAnswered(target, dlpTimeout, remote, EncodeFile(LUS, VERSION_A4, BareStatus(0x0003)).value);
  }

  lemma DoneIsEnabled(s: State, file: seq<byte>)
    requires 1 in s.world.statuses
    ensures Enabled(s, StatusDone(1, true, file, []))
  {
  }

  lemma NothingReported(s: State, remote: nat)
    requires s == Initial(Upload, s.target, s.dlpTimeout)
    ensures ReportedCodes(StatusFileRequest(Start(s), remote).history) == []
  {
  }
}
