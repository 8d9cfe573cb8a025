/**
 * A batch together with the upload operations that it starts one after the other. Every operation goes on taking
 * events after its report; whether it reports again decides whether the command keeps to its list.
 */
module BatchRun {
  import opened Bytes
  import opened Grammar
  import opened Files
  import opened ListFiles
  import opened OperationState
  import opened OperationSafety
  import opened OperationTally
  import opened OperationTransfers
  import opened OperationDrain
  import opened OperationWatchdog
  import opened UploadCommand
  import B = BatchUpload
  import F = Filenames

  /** `current` is the operation that was started last, if it has not reported; `past` are the others. */
  datatype Joint = Joint(dlpTimeout: nat, batch: B.Batch, current: Option<Job>, past: seq<State>)

  datatype JointEvent = OfCurrent(e: Event) | OfPast(i: nat, e: Event)

  /** The operation that the batch has just started. */
  function FirstJob(b: B.Batch, dlpTimeout: nat): Option<Job> {
    if b.running == None then None
    else Some(JobStep(NewJob(F.ParseTargetId(b.running.value), dlpTimeout, b.loads), StartRequested))
  }

  ghost function Begun(targets: map<B.Name, B.Address>, batch: map<B.Name, seq<Load>>, dlpTimeout: nat): Joint {
    var b := B.Started(targets, batch);
    Joint(dlpTimeout, b, FirstJob(b, dlpTimeout), [])
  }

  /** What the environment and the operator can do; nobody terminates, and nobody calls an operation after its report. */
  ghost predicate Allowed(j: Joint, e: JointEvent) {
    match e
    case OfCurrent(f) =>
      j.current.Some? && Expected(j.current.value, f) && !f.StartRequested? && !(f.Called? && f.call.Terminate?)
    case OfPast(i, f) => i < |j.past| && Enabled(j.past[i], f) && Internal(f) && CallsIn(f) == []
  }

  /** The code of the last report. */
  function LastCode(h: History): uint16 {
    match h
    case Empty => 0
    case Snoc(b, n) => if n.Finished? then n.code else LastCode(b)
  }

  predicate HasReported(s: State, t: State) {
    Reports(t) > Reports(s)
  }

  function Report(s: State, t: State): seq<B.Event> {
    if HasReported(s, t) then [B.Finished(LastCode(t.history))] else []
  }

  /** What the batch command is told: that its load list has gone out, and that an operation has finished. */
  function Told(j: Joint, e: JointEvent): seq<B.Event>
    requires e.OfCurrent? ==> j.current.Some?
    requires e.OfPast? ==> e.i < |j.past|
  {
    match e
    case OfCurrent(f) =>
      var job := j.current.value;
      (if Transmits(job, f) then [B.Status(OPERATION_ACCEPTED, false)] else [])
      + Report(job.operation, Step(job.operation, f))
    case OfPast(i, f) => Report(j.past[i], Step(j.past[i], f))
  }

  ghost function JointStep(j: Joint, e: JointEvent): Joint
    requires Allowed(j, e)
  {
    var b := B.After(j.batch, Told(j, e));
    match e
    case OfCurrent(f) =>
      var job, next := j.current.value, JobStep(j.current.value, f);
      if HasReported(job.operation, next.operation) then
        j.(batch := b, current := FirstJob(b, j.dlpTimeout), past := j.past + [next.operation])
      else
        j.(batch := b, current := Some(next))
    case OfPast(i, f) =>
      var next := Step(j.past[i], f);
      var later := j.(batch := b, past := j.past[i := next]);
      if HasReported(j.past[i], next) then later.(current := FirstJob(b, j.dlpTimeout)) else later
  }

  ghost predicate JointPossible(j: Joint, es: seq<JointEvent>)
    decreases |es|
  {
    es != [] ==> Allowed(j, es[0]) && JointPossible(JointStep(j, es[0]), es[1..])
  }

  ghost function JointAfter(j: Joint, es: seq<JointEvent>): Joint
    requires JointPossible(j, es)
    decreases |es|
  {
    if es == [] then j else JointAfter(JointStep(j, es[0]), es[1..])
  }

  ghost function AllTold(j: Joint, es: seq<JointEvent>): seq<B.Event>
    requires JointPossible(j, es)
    decreases |es|
  {
    if es == [] then [] else Told(j, es[0]) + AllTold(JointStep(j, es[0]), es[1..])
  }

  /** When the current operation reports, it leaves nothing behind that can report again. */
  ghost predicate LeavesNothing(j: Joint, e: JointEvent)
    requires Allowed(j, e)
  {
    e.OfCurrent? ==>
      var t := Step(j.current.value.operation, e.e);
      HasReported(j.current.value.operation, t) ==> !CanReport(t)
  }

  ghost predicate Clean(j: Joint, es: seq<JointEvent>)
    requires JointPossible(j, es)
    decreases |es|
  {
    es != [] ==> LeavesNothing(j, es[0]) && Clean(JointStep(j, es[0]), es[1..])
  }

  /** A possible run of a batch in which no report leaves anything behind that can report again. */
  ghost predicate CleanRun(targets: map<B.Name, B.Address>, batch: map<B.Name, seq<Load>>, dlpTimeout: nat,
                           es: seq<JointEvent>)
  {
    JointPossible(Begun(targets, batch, dlpTimeout), es) && Clean(Begun(targets, batch, dlpTimeout), es)
  }

  // ---- Jobs ---------------------------------------------------------------------------------------------------------------------------

  lemma {:induction false} JobAndThen(j: Job, es: seq<Event>, e: Event)
    requires JobPossible(j, es) && Expected(JobAfter(j, es), e)
    ensures JobPossible(j, es + [e]) && JobAfter(j, es + [e]) == JobStep(JobAfter(j, es), e)
    decreases |es|
  {
    hide JobStep, Expected;
    if es == [] {
      assert [e][1..] == [] && es + [e] == [e];
      assert JobPossible(JobStep(j, e), []) && JobAfter(JobStep(j, e), []) == JobStep(j, e);
    } else {
      assert (es + [e])[0] == es[0] && (es + [e])[1..] == es[1..] + [e];
      JobAndThen(JobStep(j, es[0]), es[1..], e);
    }
  }

  lemma JobReachableStep(j: Job, e: Event)
    requires JobReachable(j) && Expected(j, e)
    ensures JobReachable(JobStep(j, e))
    ensures JobStep(j, e).loads == j.loads
  {
    hide JobPossible, JobAfter, Expected, Step, Transmits;
    var target, dlpTimeout, es :|
      JobPossible(NewJob(target, dlpTimeout, j.loads), es) && j == JobAfter(NewJob(target, dlpTimeout, j.loads), es);
    JobAndThen(NewJob(target, dlpTimeout, j.loads), es, e);
  }

  lemma {:induction false} OperationOfJob(j: Job, es: seq<Event>)
    requires JobPossible(j, es)
    ensures Possible(j.operation, es) && JobAfter(j, es).operation == After(j.operation, es)
    decreases |es|
  {
    hide Step, Enabled, Transmits;
    if es != [] {
      OperationOfJob(JobStep(j, es[0]), es[1..]);
    }
  }

  lemma OperationIsReachable(j: Job)
    requires JobReachable(j)
    ensures Reachable(j.operation)
  {
    hide JobPossible, JobAfter, Possible, After;
    var target, dlpTimeout, es :|
      JobPossible(NewJob(target, dlpTimeout, j.loads), es) && j == JobAfter(NewJob(target, dlpTimeout, j.loads), es);
    OperationOfJob(NewJob(target, dlpTimeout, j.loads), es);
    RunIsReachable(Upload, target, dlpTimeout, es);
  }

  lemma FirstJobIsReachable(b: B.Batch, dlpTimeout: nat)
    requires b.running.Some? && !b.transmitted
    ensures var job := FirstJob(b, dlpTimeout).value; JobReachable(job) && job.loads == b.loads && !job.transmitted
  {
    hide Step, JobReachable;
    var first := NewJob(F.ParseTargetId(b.running.value), dlpTimeout, b.loads);
    NewJobIsReachable(first, F.ParseTargetId(b.running.value), dlpTimeout);
    JobReachableStep(first, StartRequested);
  }

  lemma NewJobIsReachable(j: Job, target: F.TargetId, dlpTimeout: nat)
    requires j == NewJob(target, dlpTimeout, j.loads)
    ensures JobReachable(j)
  {
    assert JobPossible(j, []) && JobAfter(j, []) == j;
  }

  /** A report that leaves nothing behind has stopped the server. */
  lemma ReportStopsServer(s: State, e: Event)
    requires Reachable(s) && Enabled(s, e) && !e.StartRequested?
    requires HasReported(s, Step(s, e)) && !CanReport(Step(s, e))
    ensures !Step(s, e).serverUp
  {
    hide Reachable, Step, TallyOf, SignOfLife;
    if e.TimePassed? {
      TimeStep(s, e);
    } else {
      StepAnswered(s, e);
    }
  }

  // ---- The invariant --------------------------------------------------------------------------------------------------------------------

  predicate Settled(s: State) {
    !s.serverUp && !CanReport(s)
  }

  ghost predicate JointInv(j: Joint) {
    && B.LatchIsExact(j.batch)
    && (j.current.Some? <==> j.batch.running.Some?)
    && (j.current.Some? ==>
          var job := j.current.value;
          JobReachable(job) && job.loads == j.batch.loads && job.transmitted == j.batch.transmitted)
    && forall s <- j.past :: Settled(s)
  }

  /** Telling the batch that the list has gone out. */
  lemma ToldSent(b: B.Batch, es: seq<B.Event>)
    requires b.running.Some? && B.LatchIsExact(b)
    ensures var c := B.Step(b, B.Status(OPERATION_ACCEPTED, false));
            && c.transmitted && c.loads == b.loads && c.running == b.running && B.LatchIsExact(c)
            && B.After(b, [B.Status(OPERATION_ACCEPTED, false)] + es) == B.After(c, es)
            && (B.Possible(b, [B.Status(OPERATION_ACCEPTED, false)] + es) <==> B.Possible(c, es))
  {
    var e := B.Status(OPERATION_ACCEPTED, false);
    assert ([e] + es)[0] == e && ([e] + es)[1..] == es;
  }

  lemma ToldNothing(b: B.Batch)
    ensures B.After(b, []) == b && B.Possible(b, [])
  {
  }

  lemma ToldFinished(b: B.Batch, code: uint16)
    requires b.running.Some? && B.LatchIsExact(b)
    ensures B.Possible(b, [B.Finished(code)])
    ensures var c := B.After(b, [B.Finished(code)]); B.LatchIsExact(c) && (c.running.Some? ==> !c.transmitted)
  {
    var c := B.OperationFinished(b, code);
    assert [B.Finished(code)][1..] == [];
    ToldNothing(c);
    assert B.Possible(b, [B.Finished(code)]) && B.After(b, [B.Finished(code)]) == c;
    if code == OPERATION_COMPLETED {
      B.NextAttempt(b.(running := None), []);
    }
  }

  lemma CurrentKeeps(j: Joint, f: Event)
    requires JointInv(j) && Allowed(j, OfCurrent(f)) && LeavesNothing(j, OfCurrent(f))
    ensures B.Possible(j.batch, Told(j, OfCurrent(f))) && JointInv(JointStep(j, OfCurrent(f)))
  {
    hide JobReachable, Reachable, Expected, Step, Transmits, Reports, CanReport, FirstJob, B.LatchIsExact, B.Possible, B.After,
         B.Step;
    var job := j.current.value;
    var next := JobStep(job, f);
    JobReachableStep(job, f);
    OperationIsReachable(job);
    ExpectedIsEnabled(job, f);
    var report := Report(job.operation, next.operation);
    var b := j.batch;
    if Transmits(job, f) {
      ToldSent(b, report);
      b := B.Step(b, B.Status(OPERATION_ACCEPTED, false));
    } else {
      assert [] + report == report;
    }
    if HasReported(job.operation, next.operation) {
      ReportStopsServer(job.operation, f);
      ToldFinished(b, LastCode(next.operation.history));
      var c := B.After(b, report);
      FirstJobIsThere(c, j.dlpTimeout);
    } else {
      ToldNothing(b);
    }
  }

  lemma ExpectedIsEnabled(j: Job, e: Event)
    requires Expected(j, e)
    ensures Enabled(j.operation, e)
  {
  }

  lemma FirstJobIsThere(b: B.Batch, dlpTimeout: nat)
    requires b.running.Some? ==> !b.transmitted
    ensures FirstJob(b, dlpTimeout).Some? <==> b.running.Some?
    ensures b.running.Some? ==>
              var job := FirstJob(b, dlpTimeout).value; JobReachable(job) && job.loads == b.loads && !job.transmitted
  {
    if b.running.Some? {
      FirstJobIsReachable(b, dlpTimeout);
    }
  }

  /** Operations that have left nothing behind tell the batch nothing any more. */
  lemma PastKeeps(j: Joint, i: nat, f: Event)
    requires JointInv(j) && Allowed(j, OfPast(i, f))
    ensures Told(j, OfPast(i, f)) == []
    ensures B.Possible(j.batch, Told(j, OfPast(i, f))) && JointInv(JointStep(j, OfPast(i, f)))
  {
    hide JobReachable, Step, CanReport, TallyOf, B.LatchIsExact, Enabled, Internal;
    assert j.past[i] in j.past && Settled(j.past[i]);
    SilentStep(j.past[i], f);
    ToldNothing(j.batch);
  }

  /**
   * The condition is exact: an upload that has stopped its server can tell the batch nothing any more if and only if
   * it has left nothing behind.
   */
  lemma PastIsQuietIff(j: Joint, i: nat)
    requires i < |j.past| && Reachable(j.past[i]) && j.past[i].kind == Upload && !j.past[i].serverUp
    ensures (forall f :: Allowed(j, OfPast(i, f)) ==> Told(j, OfPast(i, f)) == []) <==> !CanReport(j.past[i])
  {
    hide Reachable, Enabled, Internal, Step, TallyOf, CanReport, Inv;
    var s := j.past[i];
    if CanReport(s) {
      var f := Leftover(s);
      assert Allowed(j, OfPast(i, f)) && Told(j, OfPast(i, f)) != [];
    } else {
      forall f | Allowed(j, OfPast(i, f)) ensures Told(j, OfPast(i, f)) == [] {
        SilentStep(s, f);
      }
    }
  }

  /** An event with which it reports again. */
  lemma Leftover(s: State) returns (f: Event)
    requires Reachable(s) && s.kind == Upload && CanReport(s)
    ensures Enabled(s, f) && Internal(f) && CallsIn(f) == [] && HasReported(s, Step(s, f))
  {
    hide Reachable, Inv, Watched, TallyOf, InitialisationCompleted, StatusFileCompleted, TimerHandler;
    ReachableKeeps(s);
    if s.timer.Some? {
      f := TimerFailed;
      TimerTally(s, true);
    } else if s.world.initialisations != {} {
      var id :| id in s.world.initialisations;
      f := InitialisationDone(id, false, [], []);
      FailedInitialisationTally(s, id, []);
    } else {
      var id :| id in s.world.statuses;
      f := StatusDone(id, false, [], []);
      FailedStatusReports(s, id);
    }
  }

  lemma JointStepKeeps(j: Joint, e: JointEvent)
    requires JointInv(j) && Allowed(j, e) && LeavesNothing(j, e)
    ensures B.Possible(j.batch, Told(j, e)) && JointInv(JointStep(j, e))
    ensures JointStep(j, e).batch == B.After(j.batch, Told(j, e))
  {
    hide JointInv, B.Possible, B.After, Told, Allowed, LeavesNothing, FirstJob, JobStep, Step;
    match e {
      case OfCurrent(f) => CurrentKeeps(j, f);
      case OfPast(i, f) => PastKeeps(j, i, f);
    }
  }

  lemma {:induction false} BatchAndThen(b: B.Batch, es: seq<B.Event>, fs: seq<B.Event>)
    requires B.Possible(b, es) && B.Possible(B.After(b, es), fs)
    ensures B.Possible(b, es + fs) && B.After(b, es + fs) == B.After(B.After(b, es), fs)
    decreases |es|
  {
    hide B.Step;
    if es == [] {
      assert es + fs == fs;
    } else {
      assert (es + fs)[0] == es[0] && (es + fs)[1..] == es[1..] + fs;
      BatchAndThen(B.Step(b, es[0]), es[1..], fs);
    }
  }

  lemma {:induction false} JointRun(j: Joint, es: seq<JointEvent>)
    requires JointInv(j) && JointPossible(j, es) && Clean(j, es)
    ensures B.Possible(j.batch, AllTold(j, es)) && JointInv(JointAfter(j, es))
    ensures JointAfter(j, es).batch == B.After(j.batch, AllTold(j, es))
    decreases |es|
  {
    hide JointInv, JointStep, Expected, LeavesNothing, Told, B.Possible, B.After;
    if es == [] {
      ToldNothing(j.batch);
    } else {
      JointStepKeeps(j, es[0]);
      JointRun(JointStep(j, es[0]), es[1..]);
      BatchAndThen(j.batch, Told(j, es[0]), AllTold(JointStep(j, es[0]), es[1..]));
    }
  }

  // ---- Main results ---------------------------------------------------------------------------------------------------------------------

  lemma BegunKeeps(targets: map<B.Name, B.Address>, batch: map<B.Name, seq<Load>>, dlpTimeout: nat)
    ensures JointInv(Begun(targets, batch, dlpTimeout))
  {
    hide JobReachable, FirstJob;
    B.NextAttempt(B.Loaded(targets, batch), []);
    FirstJobIsThere(B.Started(targets, batch), dlpTimeout);
  }

  /**
   * If no operation leaves anything behind that can report again, the operations together drive the batch command
   * through a run of its list specification, with the codes they report, and the latch is exact.
   */
  lemma OperationsDriveTheBatch(targets: map<B.Name, B.Address>, batch: map<B.Name, seq<Load>>, dlpTimeout: nat,
                                es: seq<JointEvent>)
    requires CleanRun(targets, batch, dlpTimeout, es)
    ensures var j := Begun(targets, batch, dlpTimeout);
            var b, told := JointAfter(j, es).batch, AllTold(j, es);
            && B.Possible(B.Started(targets, batch), told) && b == B.After(B.Started(targets, batch), told)
            && B.Names(b.attempts) == B.Attempted(B.Sorted(batch.Keys), B.Codes(told))
            && b.latch == (if JointAfter(j, es).current.Some? then 1 else 0)
  {
    hide JointPossible, Clean, JointAfter, AllTold, JobReachable, B.Possible, B.After, B.Attempted, B.Sorted, B.Names, B.Codes,
         FirstJob;
    var j := Begun(targets, batch, dlpTimeout);
    BegunKeeps(targets, batch, dlpTimeout);
    JointRun(j, es);
    B.BatchRefinesList(targets, batch, AllTold(j, es));
  }

  /** In such a run every operation has handed over at most one load list, and that of the running target is its own. */
  lemma OneListEach(targets: map<B.Name, B.Address>, batch: map<B.Name, seq<Load>>, dlpTimeout: nat, es: seq<JointEvent>)
    requires CleanRun(targets, batch, dlpTimeout, es)
    ensures var j := JointAfter(Begun(targets, batch, dlpTimeout), es);
            j.current.Some? ==>
              && |SentLists(j.current.value)| == (if j.batch.transmitted then 1 else 0)
              && j.batch.running.Some? && j.current.value.loads == j.batch.loads
  {
    hide JointPossible, Clean, JointAfter, AllTold, JobReachable, B.Possible, B.After, FirstJob, TallyOf;
    var j := Begun(targets, batch, dlpTimeout);
    BegunKeeps(targets, batch, dlpTimeout);
    JointRun(j, es);
    if JointAfter(j, es).current.Some? {
      AtMostOneLoadList(JointAfter(j, es).current.value);
    }
  }

  /** A clean run: the initialisation of the first target fails, and the batch is over. */
  lemma ACleanRun(targets: map<B.Name, B.Address>, batch: map<B.Name, seq<Load>>, dlpTimeout: nat)
    requires batch.Keys != {}
    ensures var es := [OfCurrent(InitialisationDone(0, false, [], []))];
            && CleanRun(targets, batch, dlpTimeout, es)
            && JointAfter(Begun(targets, batch, dlpTimeout), es).batch.latch == 0
  {
    hide Step, TallyOf, B.Least, Start;
    var j := Begun(targets, batch, dlpTimeout);
    var s := Initial(Upload, F.ParseTargetId(B.Least(batch.Keys)), dlpTimeout);
    var f := InitialisationDone(0, false, [], []);
    FirstOperation(targets, batch, dlpTimeout);
    FailedStart(s);
    FailedInitialisationTally(Start(s), 0, []);
    ToldOne(j.batch, OPERATION_ABORTED_BY_DLP);
    assert [] + [B.Finished(OPERATION_ABORTED_BY_DLP)] == [B.Finished(OPERATION_ABORTED_BY_DLP)];
    var t := JointStep(j, OfCurrent(f));
    assert JointPossible(t, []) && JointAfter(t, []) == t && Clean(t, []);
    JointTwo(j, OfCurrent(f), []);
    assert [OfCurrent(f)] + [] == [OfCurrent(f)] && [OfCurrent(f)][1..] == [];
  }

  lemma FailedStart(s: State)
    requires s == Initial(Upload, s.target, s.dlpTimeout)
    ensures var f := InitialisationDone(0, false, [], []);
            && Enabled(Start(s), f) && Step(Start(s), f) == InitialisationCompleted(Start(s), 0, false, [], [])
            && !CanReport(Step(Start(s), f)) && LastCode(Step(Start(s), f).history) == OPERATION_ABORTED_BY_DLP
  {
    hide DecodeFile;
  }

  // ---- A run that breaks the latch ---------------------------------------------------------------------------------------------------------

  lemma RequestInJoint(j: Joint, remote: nat, name: string)
    requires j.current.Some?
    requires var s := j.current.value.operation;
             && s.kind == Upload && s.serverUp && s.abortReason == NoAbort && F.Compliant(s.target)
             && name == OwnName(s, F.UploadStatus)
    ensures var e := OfCurrent(Requested(remote, Write, name));
            && Allowed(j, e)
            && var s := j.current.value.operation;
               JointStep(j, e) == j.(current := Some(j.current.value.(operation := StatusFileRequest(s, remote))))
  {
    hide Step, Enabled, StatusFileRequest, TallyOf, OwnName;
    var job := j.current.value;
    StatusRequestStep(job.operation, remote);
    StatusRequestTally(job.operation, remote);
    ToldNothing(j.batch);
  }

  lemma FailedReport(s: State, id: Id)
    requires Removed(s.statusTransfers, id) == 1 && id in s.world.statuses
    ensures var t := Step(s, StatusDone(id, false, [], []));
            Report(s, t) == [B.Finished(OPERATION_ABORTED_BY_DLP)] && HasReported(s, t)
  {
    hide Step, Removed, TallyOf;
    StatusFailedStep(s, id);
    FailedTally(s, id);
  }

  lemma FailedTally(s: State, id: Id)
    requires Removed(s.statusTransfers, id) == 1
    ensures Reports(Step(s, StatusDone(id, false, [], []))) > Reports(s)
  {
    hide TallyOf, Finish, StatusOver, Removed, ReadStatus;
    OverTally(s, id);
    FinishTally(StatusOver(s, id), OPERATION_ABORTED_BY_DLP, StatusTransferFailed, 0);
  }

  lemma NoReaction(j: Job)
    ensures ReactionTo(j, []) == []
  {
  }

  lemma FailInJoint(j: Joint, id: Id)
    requires j.current.Some?
    requires var s := j.current.value.operation; id in s.world.statuses && Removed(s.statusTransfers, id) == 1
    ensures var e := OfCurrent(StatusDone(id, false, [], []));
            && Allowed(j, e)
            && var b := B.OperationFinished(j.batch, OPERATION_ABORTED_BY_DLP);
               JointStep(j, e) == j.(batch := b, current := None,
                                     past := j.past + [Step(j.current.value.operation, StatusDone(id, false, [], []))])
  {
    hide Step, TallyOf, Removed, ReactionTo;
    var job := j.current.value;
    NoReaction(job);
    StatusFailedStep(job.operation, id);
    FailedReport(job.operation, id);
    ToldOne(j.batch, OPERATION_ABORTED_BY_DLP);
    assert [] + [B.Finished(OPERATION_ABORTED_BY_DLP)] == [B.Finished(OPERATION_ABORTED_BY_DLP)];
  }

  lemma ToldOne(b: B.Batch, code: uint16)
    ensures B.After(b, [B.Finished(code)]) == B.OperationFinished(b, code)
  {
    assert [B.Finished(code)][1..] == [];
    ToldNothing(B.OperationFinished(b, code));
  }

  lemma FailInPast(j: Joint, i: nat, id: Id)
    requires i < |j.past| && id in j.past[i].world.statuses && Removed(j.past[i].statusTransfers, id) == 1
    ensures var e := OfPast(i, StatusDone(id, false, [], []));
            Allowed(j, e) && JointStep(j, e).batch == B.OperationFinished(j.batch, OPERATION_ABORTED_BY_DLP)
  {
    hide Step, TallyOf, Removed;
    StatusFailedStep(j.past[i], id);
    FailedReport(j.past[i], id);
    ToldOne(j.batch, OPERATION_ABORTED_BY_DLP);
  }

  lemma JointTwo(j: Joint, e: JointEvent, es: seq<JointEvent>)
    requires Allowed(j, e) && JointPossible(JointStep(j, e), es)
    ensures JointPossible(j, [e] + es) && JointAfter(j, [e] + es) == JointAfter(JointStep(j, e), es)
  {
    hide Allowed, JointStep;
    assert ([e] + es)[0] == e && ([e] + es)[1..] == es;
  }

  /**
   * The first target asks for two status transfers, both fail, and nobody has terminated anything: the command hears
   * of it twice, and the latch is counted below zero.
   */
  lemma TheLatchCanBreak(targets: map<B.Name, B.Address>, batch: map<B.Name, seq<Load>>, dlpTimeout: nat, remote: nat)
    requires batch.Keys != {} && F.Compliant(F.ParseTargetId(B.Least(batch.Keys)))
    ensures exists es :: JointPossible(Begun(targets, batch, dlpTimeout), es)
                         && JointAfter(Begun(targets, batch, dlpTimeout), es).batch.latch == -1
  {
    hide Step, Allowed, JointStep, Start, StatusFileRequest, OwnName, Removed, Without, B.Least;
    var j0 := Begun(targets, batch, dlpTimeout);
    var s := Initial(Upload, F.ParseTargetId(B.Least(batch.Keys)), dlpTimeout);
    FirstOperation(targets, batch, dlpTimeout);
    StartStep(s);
    var name := OwnName(Start(s), F.UploadStatus);
    var asked := OfCurrent(Requested(remote, Write, name));
    RequestInJoint(j0, remote, name);
    StatusRequestStep(Start(s), remote);
    var j1 := JointStep(j0, asked);
    var s1 := StatusFileRequest(Start(s), remote);
    SameName(Start(s), s1, F.UploadStatus);
    RequestInJoint(j1, remote, name);
    StatusRequestStep(s1, remote);
    var j2 := JointStep(j1, asked);
    var s2 := StatusFileRequest(s1, remote);
    assert s2.statusTransfers == [2, 1];
    TwoIds();
    var first := OfCurrent(StatusDone(1, false, [], []));
    FailInJoint(j2, 1);
    StatusFailedStep(s2, 1);
    var j3 := JointStep(j2, first);
    var second := OfPast(0, StatusDone(2, false, [], []));
    FailInPast(j3, 0, 2);
    var j4 := JointStep(j3, second);
    assert j4.batch.latch == -1 by { B.SecondReportBreaksTheLatch(j0.batch, OPERATION_ABORTED_BY_DLP, OPERATION_ABORTED_BY_DLP); }
    assert JointPossible(j4, []) && JointAfter(j4, []) == j4;
    JointTwo(j3, second, []);
    JointTwo(j2, first, [second] + []);
    JointTwo(j1, asked, [first] + ([second] + []));
    JointTwo(j0, asked, [asked] + ([first] + ([second] + [])));
  }

  lemma FirstOperation(targets: map<B.Name, B.Address>, batch: map<B.Name, seq<Load>>, dlpTimeout: nat)
    requires batch.Keys != {}
    ensures var j := Begun(targets, batch, dlpTimeout);
            && j.current.Some? && j.past == [] && j.batch.running.Some? && j.batch.latch == 1
            && j.current.value.operation == Start(Initial(Upload, F.ParseTargetId(B.Least(batch.Keys)), dlpTimeout))
  {
    hide Start, B.Least;
  }
}
