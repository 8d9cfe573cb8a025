/** What is left to happen once `finished` has stopped the server: only a bounded number of events. */
module OperationDrain {
  import opened Bytes
  import opened Grammar
  import opened Files
  import opened OperationState
  import opened OperationSafety
  import opened OperationTally
  import F = Filenames

  /** Transfers whose completion may call `finished` or re-arm the timer. */
  function Primary(w: World): nat {
    |w.initialisations| + |w.statuses| + |w.lists|
  }

  function TimerWeight(s: State): nat {
    if s.timer.Some? then 1 else 0
  }

  /** Calls of `finished`, counting the one an armed timer may still lead to. */
  function Score(s: State): nat {
    TallyOf(s).finishes + TimerWeight(s)
  }

  function Weight(s: State): nat {
    2 * Primary(s.world) + TimerWeight(s) + |s.world.clients|
  }

  function Submits(calls: seq<Call>): nat {
    if calls == [] then 0 else (if calls[0].Submit? then 1 else 0) + Submits(calls[1..])
  }

  predicate NoTerminate(calls: seq<Call>) {
    forall c <- calls :: !c.Terminate?
  }

  /** Nobody starts, calls or requests anything; handlers do not terminate. */
  predicate Internal(e: Event) {
    !e.StartRequested? && !e.Called? && !e.Requested? && NoTerminate(CallsIn(e))
  }

  /** Passing time is not counted as an event. */
  function Cost(e: Event): nat {
    if e.TimePassed? then 0 else 1
  }

  function Events(es: seq<Event>): nat {
    if es == [] then 0 else Cost(es[0]) + Events(es[1..])
  }

  /** The completions at which a handler is called back. */
  function Callback(e: Event): nat {
    if e.InitialisationDone? || e.StatusDone? || e.ListDone? then 1 else 0
  }

  function CallbacksIn(es: seq<Event>): nat {
    if es == [] then 0 else Callback(es[0]) + CallbacksIn(es[1..])
  }

  function SubmitsIn(es: seq<Event>): nat {
    if es == [] then 0 else Submits(CallsIn(es[0])) + SubmitsIn(es[1..])
  }

  /** A reaction without terminations: it may only add client transfers. */
  predicate Reacted(s: State, t: State, submits: nat) {
    && t.serverUp == s.serverUp && t.timer == s.timer && t.kind == s.kind && Score(t) == Score(s)
    && t.world == s.world.(clients := t.world.clients)
    && |t.world.clients| <= |s.world.clients| + submits
  }

  lemma AbortDrains(s: State, reason: AbortReason)
    ensures Reacted(s, DoAbort(s, reason), 0)
  {
    hide TallyOf;
    AbortTally(s, reason);
  }

  lemma SubmitDrains(s: State, p: Payload)
    ensures Reacted(s, DoSubmit(s, p), 1)
  {
    hide FileOf, TallyOf;
    CallTally(s, Submit(p));
  }

  lemma CallDrains(s: State, call: Call)
    requires !call.Terminate?
    ensures Reacted(s, DoCall(s, call), if call.Submit? then 1 else 0)
  {
    hide DoAbort, DoSubmit, DoTerminate, Reacted;
    match call {
      case Abort(reason) => AbortDrains(s, reason);
      case Submit(p) => SubmitDrains(s, p);
    }
  }

  lemma {:induction false} ReactDrains(s: State, calls: seq<Call>)
    requires NoTerminate(calls)
    ensures Reacted(s, React(s, calls), Submits(calls))
    decreases |calls|
  {
    hide DoCall, TallyOf;
    if calls != [] && !Throws(s, calls[0]) {
      assert calls[0] in calls;
      CallDrains(s, calls[0]);
      ReactDrains(DoCall(s, calls[0]), calls[1..]);
    }
  }

  /** The end of a step: at most one call of `finished` or one re-armed timer. */
  predicate Ended(s: State, t: State) {
    t.world == s.world && (t.serverUp ==> s.serverUp) && Score(t) <= Score(s) + 1
  }

  lemma FinishEnds(s: State, code: uint16, cause: Cause, exceptionTime: nat)
    ensures cause != DlpTimeout ==> Ended(s, Finish(s, code, cause))
    ensures Ended(s, TriggerDlpTimeout(s, exceptionTime))
  {
    hide TallyOf;
    FinishTally(s, code, cause, exceptionTime);
  }

  lemma TakeInitialisationEnds(s: State, threw: bool, file: seq<byte>)
    requires DecodeFile(INIT, file).Some?
    ensures Ended(s, TakeInitialisation(s, threw, file))
  {
    hide DecodeFile, AcceptanceCode, Finish, TriggerDlpTimeout, TallyOf;
    var s1 := Log(s, InitialisationTaken(file)).(version := DecodeFile(INIT, file).value.version);
    LogTally(s, InitialisationTaken(file));
    SameTally(Log(s, InitialisationTaken(file)), s1);
    FinishEnds(s1, 0, InitialisationFailed, 0);
    FinishEnds(s, OPERATION_ABORTED_BY_DLP, InitialisationFailed, 0);
    FinishEnds(s, OPERATION_ABORTED_BY_DLP, UnknownAcceptance, 0);
    FinishEnds(s, AcceptanceCode(file), TargetAnswer, 0);
  }

  lemma TakeStatusEnds(s: State, status: StatusInfo, file: seq<byte>)
    ensures Ended(s, TakeStatus(s, status, file))
  {
    hide Finish, TriggerDlpTimeout, TallyOf;
    var s1 := Log(s, StatusTaken(file));
    LogTally(s, StatusTaken(file));
    var s2 := s1.(waitForFinalStatus := true);
    SameTally(s1, s2);
    FinishEnds(s1, status.code, TargetStatus, 0);
    FinishEnds(s1, OPERATION_ABORTED_BY_DLP, UnknownStatus, status.exceptionTimer);
    FinishEnds(s2, OPERATION_ABORTED_BY_DLP, UnknownStatus, status.exceptionTimer);
    FinishEnds(s2, OPERATION_ABORTED_BY_DLP, UnknownStatus, 0);
  }

  lemma ListEnds(s: State, file: seq<byte>)
    ensures Ended(s, ListFailed(s)) && Ended(s, TakeList(s, file))
  {
    hide Finish, TriggerDlpTimeout, TallyOf;
    AbortTally(s, Protocol);
    LogTally(s, ListTaken(file));
    FinishEnds(s, OPERATION_ABORTED_BY_DLP, InvalidList, 0);
    FinishEnds(Log(s, ListTaken(file)), OPERATION_COMPLETED, ListReceived, 0);
  }

  /** What one event does to the bounds; a callback uses up one of the transfers that can lead to it. */
  predicate Drains(s: State, t: State, cost: nat, callbacks: nat, submits: nat) {
    && !t.serverUp
    && Primary(t.world) + callbacks == Primary(s.world)
    && Weight(t) + cost <= Weight(s) + submits
    && Score(t) + Primary(t.world) <= Score(s) + Primary(s.world)
  }

  lemma CompletionDrains(s: State, s0: State, r: State, t: State, submits: nat)
    requires !s.serverUp && Primary(s0.world) == Primary(s.world) - 1
    requires s0.world.clients == s.world.clients
    requires s0.timer == s.timer && s0.serverUp == s.serverUp && Score(s0) == Score(s)
    requires Reacted(s0, r, submits) && (t == r || Ended(r, t))
    ensures Drains(s, t, 1, 1, submits)
  {
    hide TallyOf;
  }

  lemma InitialisationDrains(s: State, id: Id, ok: bool, file: seq<byte>, calls: seq<Call>)
    requires !s.serverUp && id in s.world.initialisations && NoTerminate(calls)
    ensures Drains(s, InitialisationCompleted(s, id, ok, file, calls), 1, 1, Submits(calls))
  {
    hide DecodeFile, ReactionThrows, React, Finish, TakeInitialisation, Drains, Ended, TallyOf;
    LogTally(s, TransferDone(id, InitialisationTransfer));
    var s0 := InitialisationOver(s, id);
    SameTally(Log(s, TransferDone(id, InitialisationTransfer)), s0);
    FinishEnds(s0, OPERATION_ABORTED_BY_DLP, InitialisationFailed, 0);
    ReactDrains(s0, calls);
    var r := React(s0, calls);
    var t := InitialisationCompleted(s, id, ok, file, calls);
    if !ok || DecodeFile(INIT, file) == None {
      CompletionDrains(s, s0, s0, t, Submits(calls));
    } else {
      TakeInitialisationEnds(r, ReactionThrows(s0, calls), file);
      CompletionDrains(s, s0, r, t, Submits(calls));
    }
  }

  lemma StatusDrains(s: State, id: Id, ok: bool, file: seq<byte>, calls: seq<Call>)
    requires !s.serverUp && Removed(s.statusTransfers, id) == 1 && id in s.world.statuses && NoTerminate(calls)
    ensures Drains(s, StatusFileCompleted(s, id, ok, file, calls), 1, 1, Submits(calls))
  {
    hide ReadStatus, ReactionThrows, Without, React, Finish, TakeStatus, Drains, Ended, TallyOf;
    LogTally(s, TransferDone(id, StatusTransfer));
    var s0 := StatusOver(s, id);
    SameTally(Log(s, TransferDone(id, StatusTransfer)), s0);
    FinishEnds(s0, OPERATION_ABORTED_BY_DLP, StatusTransferFailed, 0);
    ReactDrains(s0, calls);
    var r := React(s0, calls);
    var t := StatusFileCompleted(s, id, ok, file, calls);
    if !ok || ReadStatus(s.kind, file) == None {
      CompletionDrains(s, s0, s0, t, Submits(calls));
    } else {
      TakeStatusEnds(r, ReadStatus(s.kind, file).value, file);
      CompletionDrains(s, s0, r, t, Submits(calls));
    }
  }

  lemma ListDrains(s: State, id: Id, ok: bool, file: seq<byte>, calls: seq<Call>)
    requires !s.serverUp && id in s.world.lists && NoTerminate(calls)
    ensures Drains(s, ListFileCompleted(s, id, ok, file, calls), 1, 1, Submits(calls))
  {
    hide DecodeFile, ReactionThrows, React, ListFailed, TakeList, Drains, Ended, TallyOf;
    LogTally(s, TransferDone(id, ListTransfer));
    var s0 := ListOver(s, id);
    SameTally(Log(s, TransferDone(id, ListTransfer)), s0);
    ReactDrains(s0, calls);
    var r := React(s0, calls);
    var t := ListFileCompleted(s, id, ok, file, calls);
    ListEnds(s0, file);
    ListEnds(r, file);
    if !ok || DecodeFile(ListKind(s.kind), file) == None {
      CompletionDrains(s, s0, s0, t, Submits(calls));
    } else {
      CompletionDrains(s, s0, r, t, Submits(calls));
    }
  }

  lemma ClientDrains(s: State, id: Id, ok: bool)
    requires !s.serverUp && id in s.world.clients
    ensures Drains(s, ClientTransferCompleted(s, id, ok), 1, 0, 0)
  {
    hide TallyOf;
    ClientTally(s, id, ok);
  }

  lemma TimerDrains(s: State, error: bool)
    requires s.timer.Some?
    ensures Drains(s, TimerHandler(s, error), 1, 0, 0)
  {
    hide TallyOf;
    TimerTally(s, error);
  }

  lemma StepDrains(s: State, e: Event)
    requires Inv(s) && !s.serverUp && Enabled(s, e) && Internal(e)
    ensures Drains(s, Step(s, e), Cost(e), Callback(e), Submits(CallsIn(e)))
  {
    hide InitialisationCompleted, StatusFileCompleted, ListFileCompleted, ClientTransferCompleted, TallyOf;
    match e {
      case InitialisationDone(id, ok, file, calls) => InitialisationDrains(s, id, ok, file, calls);
      case StatusDone(id, ok, file, calls) =>
        RemovedIfDistinct(s.statusTransfers, id);
        StatusDrains(s, id, ok, file, calls);
      case ListDone(id, ok, file, calls) => ListDrains(s, id, ok, file, calls);
      case ClientDone(id, ok) => ClientDrains(s, id, ok);
      case TimerExpired => TimerDrains(s, false);
      case TimerFailed => TimerDrains(s, true);
      case TimePassed(seconds) => SameTally(s, Step(s, e));
    }
  }

  lemma {:induction false} RunDrains(s: State, es: seq<Event>)
    requires Inv(s) && Watched(s) && !s.serverUp && Possible(s, es) && forall e <- es :: Internal(e)
    ensures Drains(s, After(s, es), Events(es), CallbacksIn(es), SubmitsIn(es))
    decreases |es|
  {
    hide Step, Enabled, Inv, Watched, Internal, Weight, Score, Primary;
    if es != [] {
      assert es[0] in es;
      StepDrains(s, es[0]);
      StepKeeps(s, es[0]);
      RunDrains(Step(s, es[0]), es[1..]);
    }
  }

  /** A run that goes on from `s` by itself, after the server has stopped. */
  ghost predicate Afterwards(s: State, es: seq<Event>) {
    Reachable(s) && !s.serverUp && Possible(s, es) && forall e <- es :: Internal(e)
  }

  /** Every callback of such a run uses up one of the transfers that were outstanding when the server had stopped. */
  lemma CallbacksAreBounded(s: State, es: seq<Event>)
    requires Afterwards(s, es)
    ensures CallbacksIn(es) + Primary(After(s, es).world) == Primary(s.world)
  {
    hide TallyOf, After, Inv, Watched, Weight, Score, Primary;
    ReachableKeeps(s);
    RunDrains(s, es);
  }

  lemma {:induction false} SubmitsPerCallback(es: seq<Event>, k: nat)
    requires forall e <- es :: Internal(e) && Submits(CallsIn(e)) <= k
    ensures SubmitsIn(es) <= k * CallbacksIn(es)
    decreases |es|
  {
    if es != [] {
      assert es[0] in es;
      SubmitsPerCallback(es[1..], k);
      Distributes(k, Callback(es[0]), CallbacksIn(es[1..]));
    }
  }

  lemma Distributes(k: nat, a: nat, b: nat)
    ensures k * (a + b) == k * a + k * b
  {
  }

  lemma Grows(k: nat, a: nat, b: nat)
    requires a <= b
    ensures k * a <= k * b
  {
    Distributes(k, a, b - a);
  }

  /**
   * Once the server has stopped and nobody calls the operation any more, a run has at most so many events, apart from
   * passing time: twice the outstanding initialisation, status and list transfers, plus the outstanding client
   * transfers, plus one for an armed timer, plus k for each of the former transfers if no handler submits more than k
   * times.
   */
  lemma DrainTerminates(s: State, es: seq<Event>, k: nat)
    requires Afterwards(s, es) && forall e <- es :: Submits(CallsIn(e)) <= k
    ensures Events(es) <= Weight(s) + k * Primary(s.world)
  {
    hide TallyOf, After, Inv, Watched, Weight, Score, Primary, Internal, Reachable;
    ReachableKeeps(s);
    RunDrains(s, es);
    SubmitsPerCallback(es, k);
    Grows(k, CallbacksIn(es), Primary(s.world));
  }

  // ---- There is no infinite run, whatever handlers do --------------------------------------------------------------------

  function Prefix(run: nat -> Event, n: nat): seq<Event> {
    seq(n, i requires 0 <= i < n => run(i))
  }

  /** Every beginning of the infinite run is possible, and nobody calls the operation. */
  ghost predicate Forever(s: State, run: nat -> Event) {
    forall n: nat :: Possible(s, Prefix(run, n)) && forall e <- Prefix(run, n) :: Internal(e)
  }

  /** From the n-th event on, nothing happens but that time passes. */
  ghost predicate OnlyTimeFrom(run: nat -> Event, n: nat) {
    forall m: nat :: m >= n ==> run(m).TimePassed?
  }

  function Later(run: nat -> Event, n: nat): nat -> Event {
    (i: nat) => run(n + i)
  }

  lemma {:induction false} PossibleLater(s: State, es: seq<Event>, fs: seq<Event>)
    requires Possible(s, es + fs)
    ensures Possible(s, es) && Possible(After(s, es), fs)
    decreases |es|
  {
    hide Step, Enabled;
    if es == [] {
      assert es + fs == fs;
    } else {
      assert (es + fs)[0] == es[0] && (es + fs)[1..] == es[1..] + fs;
      PossibleLater(Step(s, es[0]), es[1..], fs);
    }
  }

  lemma ForeverLater(s: State, run: nat -> Event, n: nat)
    requires Forever(s, run)
    ensures Forever(After(s, Prefix(run, n)), Later(run, n))
  {
    hide Possible, After, Internal;
    forall m: nat
      ensures Possible(After(s, Prefix(run, n)), Prefix(Later(run, n), m))
      ensures forall e <- Prefix(Later(run, n), m) :: Internal(e)
    {
      assert Prefix(run, n + m) == Prefix(run, n) + Prefix(Later(run, n), m);
      PossibleLater(s, Prefix(run, n), Prefix(Later(run, n), m));
    }
  }

  lemma {:induction false} EventsCounts(es: seq<Event>, i: nat)
    requires i < |es| && !es[i].TimePassed?
    ensures Events(es) >= 1
  {
    if i > 0 {
      EventsCounts(es[1..], i - 1);
    }
  }

  /** Either fewer transfers with a callback are outstanding afterwards, or as many and less else. */
  lemma Descends(s: State, es: seq<Event>)
    requires Inv(s) && Watched(s) && !s.serverUp && Possible(s, es) && forall e <- es :: Internal(e)
    requires Events(es) >= 1
    ensures var t := After(s, es);
            && Inv(t) && Watched(t) && !t.serverUp && Primary(t.world) <= Primary(s.world)
            && (Primary(t.world) == Primary(s.world) ==>
                  TimerWeight(t) + |t.world.clients| < TimerWeight(s) + |s.world.clients|)
  {
    hide Inv, Watched, Possible, After, Internal, Primary, TimerWeight, Score;
    RunKeeps(s, es);
    RunDrains(s, es);
    if CallbacksIn(es) == 0 {
      NoCallbacksNoSubmits(es);
    }
  }

  lemma {:induction false} NoCallbacksNoSubmits(es: seq<Event>)
    requires (forall e <- es :: Internal(e)) && CallbacksIn(es) == 0
    ensures SubmitsIn(es) == 0
    decreases |es|
  {
    if es != [] {
      assert es[0] in es;
      NoCallbacksNoSubmits(es[1..]);
    }
  }

  lemma {:induction false} Settles(s: State, run: nat -> Event)
    requires Inv(s) && Watched(s) && !s.serverUp && Forever(s, run)
    ensures exists n: nat :: OnlyTimeFrom(run, n)
    decreases Primary(s.world), TimerWeight(s) + |s.world.clients|
  {
    hide Inv, Watched, After, Internal, Possible, Primary, TimerWeight;
    if m: nat :| !run(m).TimePassed? {
      var es := Prefix(run, m + 1);
      EventsCounts(es, m);
      Descends(s, es);
      ForeverLater(s, run, m + 1);
      Settles(After(s, es), Later(run, m + 1));
      var n: nat :| OnlyTimeFrom(Later(run, m + 1), n);
      forall i: nat | i >= m + 1 + n ensures run(i).TimePassed? {
        assert Later(run, m + 1)(i - m - 1) == run(i);
      }
      assert OnlyTimeFrom(run, m + 1 + n);
    } else {
      assert OnlyTimeFrom(run, 0);
    }
  }

  /** However often handlers submit, no run goes on forever: from some point on only time passes. */
  lemma NoInfiniteRun(s: State, run: nat -> Event)
    requires Reachable(s) && !s.serverUp && Forever(s, run)
    ensures exists n: nat :: OnlyTimeFrom(run, n)
  {
    hide Inv, Watched;
    ReachableKeeps(s);
    Settles(s, run);
  }

  /** In such a run `finished` is called at most once for each of those transfers but client transfers, and the timer. */
  lemma DrainReportsAreBounded(s: State, es: seq<Event>)
    requires Afterwards(s, es)
    ensures TallyOf(After(s, es)).finishes <= TallyOf(s).finishes + Primary(s.world) + TimerWeight(s)
  {
    hide TallyOf, After, Inv, Watched;
    ReachableKeeps(s);
    RunDrains(s, es);
  }

  lemma ServerStaysDown(s: State, es: seq<Event>)
    requires Afterwards(s, es)
    ensures !After(s, es).serverUp
  {
    hide TallyOf, After, Inv, Watched;
    ReachableKeeps(s);
    RunDrains(s, es);
  }

  /** Terminating during the initialisation reports twice: at once, and when the cancelled transfer comes back. */
  lemma TerminateReportsTwice(kind: Kind, target: F.TargetId, dlpTimeout: nat, reason: AbortReason, file: seq<byte>)
    ensures var es := [StartRequested, Called(Terminate(reason)), InitialisationDone(0, false, file, [])];
            && Possible(Initial(kind, target, dlpTimeout), es)
            && TallyOf(After(Initial(kind, target, dlpTimeout), es)).finishes == 2
  {
    hide DecodeFile, TallyOf;
    var s0 := Initial(kind, target, dlpTimeout);
    var s1 := Step(s0, StartRequested);
    var s2 := Step(s1, Called(Terminate(reason)));
    var e3 := InitialisationDone(0, false, file, []);
    var s3 := Step(s2, e3);
    var es := [StartRequested, Called(Terminate(reason)), e3];
    assert es[1..] == [Called(Terminate(reason)), e3] && es[1..][1..] == [e3] && es[1..][1..][1..] == [];
    assert Possible(s3, []) && After(s3, []) == s3;
    assert Possible(s2, [e3]) && After(s2, [e3]) == s3;
    assert Possible(s1, es[1..]) && After(s1, es[1..]) == s3;
    EmptyTally(s0);
    StartTally(s0);
    CallTally(s1, Terminate(reason));
    FailedInitialisationTally(s2, 0, file);
  }

  lemma EmptyTally(s: State)
    requires s.history == Empty
    ensures TallyOf(s).finishes == 0
  {
  }

  lemma FailedInitialisationTally(s: State, id: Id, file: seq<byte>)
    ensures TallyOf(InitialisationCompleted(s, id, false, file, [])).finishes == TallyOf(s).finishes + 1
  {
    hide DecodeFile, TallyOf, Finish;
    var s0 := InitialisationOver(s, id);
    LogTally(s, TransferDone(id, InitialisationTransfer));
    SameTally(Log(s, TransferDone(id, InitialisationTransfer)), s0);
    FinishTally(s0, OPERATION_ABORTED_BY_DLP, InitialisationFailed, 0);
  }

  // ---- When `finished` can be called again ---------------------------------------------------------------------------------

  /** Something outstanding may still report: list transfers only of the information operation, client transfers never. */
  predicate CanReport(s: State) {
    || s.world.initialisations != {} || s.world.statuses != {} || s.timer.Some?
    || (s.kind == Information && s.world.lists != {})
  }

  function Reports(s: State): nat {
    TallyOf(s).finishes
  }

  predicate Silent(s: State, t: State) {
    !t.serverUp && !CanReport(t) && Reports(t) == Reports(s)
  }

  lemma SilentList(s: State, id: Id, ok: bool, file: seq<byte>, calls: seq<Call>)
    requires !s.serverUp && !CanReport(s) && s.kind != Information && NoTerminate(calls)
    ensures Silent(s, ListFileCompleted(s, id, ok, file, calls))
  {
    hide DecodeFile, ReactionThrows, React, DoAbort, TallyOf;
    LogTally(s, TransferDone(id, ListTransfer));
    var s0 := ListOver(s, id);
    SameTally(Log(s, TransferDone(id, ListTransfer)), s0);
    ReactDrains(s0, calls);
    var r := React(s0, calls);
    AbortDrains(s0, Protocol);
    AbortDrains(r, Protocol);
    LogTally(r, ListTaken(file));
  }

  lemma SilentStep(s: State, e: Event)
    requires !s.serverUp && !CanReport(s) && Enabled(s, e) && Internal(e)
    ensures Silent(s, Step(s, e))
  {
    hide ListFileCompleted, ClientTransferCompleted, TallyOf;
    match e {
      case ListDone(id, ok, file, calls) => SilentList(s, id, ok, file, calls);
      case ClientDone(id, ok) => SilentClient(s, id, ok);
      case TimePassed(seconds) => SameTally(s, Step(s, e));
      case _ =>
    }
  }

  lemma SilentClient(s: State, id: Id, ok: bool)
    requires !s.serverUp && !CanReport(s)
    ensures Silent(s, ClientTransferCompleted(s, id, ok))
  {
    hide TallyOf, DoAbort;
    ClientTally(s, id, ok);
    AbortDrains(ClientOver(s, id), Protocol);
  }

  lemma {:induction false} SilentRun(s: State, es: seq<Event>)
    requires !s.serverUp && !CanReport(s) && Possible(s, es) && forall e <- es :: Internal(e)
    ensures Reports(After(s, es)) == Reports(s)
    decreases |es|
  {
    hide Step, Enabled, Internal, TallyOf, CanReport;
    if es != [] {
      assert es[0] in es;
      SilentStep(s, es[0]);
      SilentRun(Step(s, es[0]), es[1..]);
    }
  }

  ghost predicate ReportsIn(s: State, es: seq<Event>) {
    Possible(s, es) && (forall e <- es :: Internal(e)) && Reports(After(s, es)) > Reports(s)
  }

  lemma ReportsAtOnce(s: State, e: Event)
    requires Enabled(s, e) && Internal(e) && Reports(Step(s, e)) > Reports(s)
    ensures ReportsIn(s, [e])
  {
    hide Step, Enabled, Internal, TallyOf;
    assert [e][1..] == [] && Possible(Step(s, e), []) && After(Step(s, e), []) == Step(s, e);
  }

  lemma ReportsThen(s: State, e: Event, f: Event)
    requires Enabled(s, e) && Internal(e) && Reports(Step(s, e)) >= Reports(s)
    requires ReportsIn(Step(s, e), [f])
    ensures ReportsIn(s, [e, f])
  {
    hide Step, Enabled, Internal, TallyOf;
    assert [e, f][1..] == [f];
    assert f in [f];
  }

  lemma FailedStatusReports(s: State, id: Id)
    requires Inv(s) && id in s.world.statuses
    ensures Reports(StatusFileCompleted(s, id, false, [], [])) > Reports(s)
  {
    hide TallyOf, Finish, StatusOver, Inv, Removed;
    StatusIsInitiated(s, id);
    OverTally(s, id);
    FinishTally(StatusOver(s, id), OPERATION_ABORTED_BY_DLP, StatusTransferFailed, 0);
  }

  lemma FailedListReports(s: State, id: Id)
    requires s.kind == Information && !s.waitForFinalStatus
    ensures Reports(ListFileCompleted(s, id, false, [], [])) > Reports(s)
  {
    hide TallyOf, Finish, DecodeFile;
    OverTally(s, id);
    FinishTally(ListOver(s, id), OPERATION_ABORTED_BY_DLP, InvalidList, 0);
  }

  lemma GoodListArms(s: State, id: Id)
    requires s.kind == Information && s.waitForFinalStatus
    ensures var t := ListFileCompleted(s, id, true, PaddedList(), []); t.timer.Some? && Reports(t) == Reports(s)
  {
    hide TallyOf, DecodeFile, PaddedList;
    CanonicalListCanBeTooShort();
    var s0 := ListOver(s, id);
    OverTally(s, id);
    assert React(s0, []) == s0 && !ReactionThrows(s0, []);
    LogTally(s0, ListTaken(PaddedList()));
    FinishTally(Log(s0, ListTaken(PaddedList())), 0, TimerError, 0);
  }

  lemma TimerReports(s: State)
    requires s.timer.Some?
    ensures ReportsIn(s, [TimerFailed])
  {
    hide TallyOf, After, Possible, TimerHandler;
    TimerTally(s, true);
    ReportsAtOnce(s, TimerFailed);
  }

  lemma ListReports(s: State, id: Id)
    requires s.kind == Information && id in s.world.lists
    ensures exists es :: ReportsIn(s, es)
  {
    hide TallyOf, After, Possible, ListFileCompleted, ReportsIn, PaddedList;
    if s.waitForFinalStatus {
      var e := ListDone(id, true, PaddedList(), []);
      GoodListArms(s, id);
      TimerReports(Step(s, e));
      ReportsThen(s, e, TimerFailed);
    } else {
      FailedListReports(s, id);
      ReportsAtOnce(s, ListDone(id, false, [], []));
    }
  }

  lemma ReportIsPossible(s: State)
    requires Inv(s) && CanReport(s)
    ensures exists es :: ReportsIn(s, es)
  {
    hide Inv, TallyOf, After, Possible, InitialisationCompleted, StatusFileCompleted, ReportsIn;
    if s.timer.Some? {
      TimerReports(s);
    } else if s.world.initialisations != {} {
      var id :| id in s.world.initialisations;
      FailedInitialisationTally(s, id, []);
      ReportsAtOnce(s, InitialisationDone(id, false, [], []));
    } else if s.world.statuses != {} {
      var id :| id in s.world.statuses;
      FailedStatusReports(s, id);
      ReportsAtOnce(s, StatusDone(id, false, [], []));
    } else {
      var id :| id in s.world.lists;
      ListReports(s, id);
    }
  }

  /**
   * Once the server has stopped, `finished` can be called again without anybody calling the operation if and only if
   * an initialisation or status transfer is outstanding, the timer is armed, or, in an information operation, a list
   * transfer is outstanding.
   */
  lemma ReportsAgainIff(s: State)
    requires Reachable(s) && !s.serverUp
    ensures CanReport(s) <==> exists es :: ReportsIn(s, es)
  {
    hide Inv, Watched, CanReport, TallyOf, After, Possible;
    ReachableKeeps(s);
    if CanReport(s) {
      ReportIsPossible(s);
    } else {
      forall es | ReportsIn(s, es) ensures false {
        SilentRun(s, es);
      }
    }
  }
}
