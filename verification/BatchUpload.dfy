/** The batch upload command: one upload after the other, in the order of the target IDs, until one does not complete. */
module BatchUpload {
  import opened Bytes
  import opened Grammar
  import opened ListFiles
  import opened HostOperations
  import F = Filenames
  import S = OperationState

  type Name = string
  type Address = nat

  // ---- The order of the batch map --------------------------------------------------------------------------------------

  predicate Before(a: Name, b: Name) {
    b != "" && (a == "" || a[0] < b[0] || (a[0] == b[0] && Before(a[1..], b[1..])))
  }

  lemma {:induction false} Trichotomy(a: Name, b: Name)
    ensures Before(a, b) || a == b || Before(b, a)
    ensures !(Before(a, b) && Before(b, a)) && !Before(a, a)
  {
    if a != "" && b != "" && a[0] == b[0] {
      Trichotomy(a[1..], b[1..]);
      assert a == [a[0]] + a[1..] && b == [b[0]] + b[1..];
    }
    if a != "" {
      Trichotomy(a[1..], a[1..]);
    }
  }

  lemma {:induction false} Transitive(a: Name, b: Name, c: Name)
    requires Before(a, b) && Before(b, c)
    ensures Before(a, c)
  {
    if a != "" && a[0] == b[0] == c[0] {
      Transitive(a[1..], b[1..], c[1..]);
    }
  }

  predicate IsLeast(n: Name, names: set<Name>) {
    n in names && forall m <- names :: m == n || Before(n, m)
  }

  lemma {:induction false} LeastExists(names: set<Name>)
    requires names != {}
    ensures exists n :: IsLeast(n, names)
    decreases |names|
  {
    var n :| n in names;
    var others := names - {n};
    assert forall k <- names :: k == n || k in others;
    if others == {} {
      assert IsLeast(n, names);
    } else {
      LeastExists(others);
      var m :| IsLeast(m, others);
      Trichotomy(n, m);
      if Before(n, m) {
        forall k <- names ensures k == n || Before(n, k) {
          if k != n && k != m {
            Transitive(n, m, k);
          }
        }
        assert IsLeast(n, names);
      } else {
        assert IsLeast(m, names);
      }
    }
  }

  lemma LeastIsUnique(n: Name, m: Name, names: set<Name>)
    requires IsLeast(n, names) && IsLeast(m, names)
    ensures n == m
  {
    Trichotomy(n, m);
  }

  ghost function Least(names: set<Name>): (n: Name)
    requires names != {}
    ensures IsLeast(n, names)
  {
    LeastExists(names);
    var n :| IsLeast(n, names);
    n
  }

  /** The names in their order. */
  ghost function Sorted(names: set<Name>): seq<Name>
    decreases |names|
  {
    if names == {} then [] else [Least(names)] + Sorted(names - {Least(names)})
  }

  predicate Ascending(order: seq<Name>) {
    forall i, j :: 0 <= i < j < |order| ==> Before(order[i], order[j])
  }

  lemma {:induction false} SortedIsOrder(names: set<Name>)
    ensures Ascending(Sorted(names)) && |Sorted(names)| == |names|
    ensures forall n :: n in Sorted(names) <==> n in names
    decreases |names|
  {
    if names != {} {
      var n, others := Least(names), Sorted(names - {Least(names)});
      SortedIsOrder(names - {n});
      forall j | 0 <= j < |others| ensures Before(n, others[j]) {
        assert others[j] in names - {n};
      }
    }
  }

  // ---- The command as a state machine ------------------------------------------------------------------------------------

  /** A target whose upload was started, with what was found in the targets list. */
  datatype Attempt = Attempt(name: Name, address: Option<Address>)

  datatype Batch = Batch(
    targets: map<Name, Address>,
    remaining: map<Name, seq<Load>>,
    running: Option<Name>,
    loads: seq<Load>,
    transmitted: bool,
    latch: int,
    attempts: seq<Attempt>,
    sent: seq<(Name, seq<Load>)>)   // load lists handed to operations

  function Find(targets: map<Name, Address>, n: Name): Option<Address> {
    if n in targets then Some(targets[n]) else None
  }

  ghost function NextTarget(b: Batch): Batch {
    if b.remaining.Keys == {} then
      b.(latch := b.latch - 1)
    else
      var n := Least(b.remaining.Keys);
      b.(remaining := b.remaining - {n}, running := Some(n), loads := b.remaining[n], transmitted := false,
         attempts := b.attempts + [Attempt(n, Find(b.targets, n))])
  }

  ghost function OperationFinished(b: Batch, code: uint16): Batch {
    var b0 := b.(running := None);
    if code != OPERATION_COMPLETED then b0.(latch := b.latch - 1) else NextTarget(b0)
  }

  /** `threw`: the operation could not encode the list. */
  function StatusSeen(b: Batch, code: uint16, threw: bool): Batch
    requires b.running.Some?
  {
    if code != OPERATION_ACCEPTED || b.transmitted || threw then b
    else b.(transmitted := true, sent := b.sent + [(b.running.value, b.loads)])
  }

  function Loaded(targets: map<Name, Address>, batch: map<Name, seq<Load>>): Batch {
    Batch(targets, batch, None, [], false, 1, [], [])
  }

  datatype Event = Finished(code: uint16) | Status(code: uint16, threw: bool)

  ghost function Step(b: Batch, e: Event): Batch {
    match e
    case Finished(code) => OperationFinished(b, code)
    case Status(code, threw) => if b.running == None then b else StatusSeen(b, code, threw)
  }

  /** Every report comes while an operation is running; so an operation reports once, because then it runs no longer. */
  ghost predicate Possible(b: Batch, es: seq<Event>)
    decreases |es|
  {
    es != [] ==> (es[0].Finished? ==> b.running.Some?) && Possible(Step(b, es[0]), es[1..])
  }

  ghost function After(b: Batch, es: seq<Event>): Batch
    decreases |es|
  {
    if es == [] then b else After(Step(b, es[0]), es[1..])
  }

  /** With which codes operations have finished. */
  function Codes(es: seq<Event>): seq<uint16> {
    if es == [] then []
    else if es[0].Finished? then [es[0].code] + Codes(es[1..])
    else Codes(es[1..])
  }

  // ---- The list specification ----------------------------------------------------------------------------------------------

  /** The targets up to and including the first that does not complete; the last may have no code yet. */
  function Attempted(order: seq<Name>, codes: seq<uint16>): seq<Name> {
    if order == [] then []
    else [order[0]] + if codes != [] && codes[0] == OPERATION_COMPLETED then Attempted(order[1..], codes[1..]) else []
  }

  lemma {:induction false} AttemptedIsPrefix(order: seq<Name>, codes: seq<uint16>)
    ensures var k := |Attempted(order, codes)|;
            && k <= |order| && Attempted(order, codes) == order[..k]
            && k - 1 <= |codes| && (forall i :: 0 <= i < k - 1 ==> codes[i] == OPERATION_COMPLETED)
            && (order != [] ==> k > 0)
            && (0 < k < |order| && |codes| >= k ==> codes[k - 1] != OPERATION_COMPLETED)
    decreases |order|
  {
    if order != [] && codes != [] && codes[0] == OPERATION_COMPLETED {
      AttemptedIsPrefix(order[1..], codes[1..]);
    }
  }

  function Names(attempts: seq<Attempt>): (names: seq<Name>)
    ensures |names| == |attempts| && forall i :: 0 <= i < |names| ==> names[i] == attempts[i].name
  {
    seq(|attempts|, i requires 0 <= i < |attempts| => attempts[i].name)
  }

  /** The targets that are still to be attempted if the running one is the first to finish with one of the codes. */
  ghost function ToCome(b: Batch, codes: seq<uint16>): seq<Name> {
    if b.running.Some? && codes != [] && codes[0] == OPERATION_COMPLETED
    then Attempted(Sorted(b.remaining.Keys), codes[1..]) else []
  }

  predicate LatchIsExact(b: Batch) {
    b.latch == if b.running.Some? then 1 else 0
  }

  lemma NextAttempt(b: Batch, codes: seq<uint16>)
    requires b.running == None && b.latch == 1
    ensures var t := NextTarget(b);
            && Names(t.attempts) + ToCome(t, codes) == Names(b.attempts) + Attempted(Sorted(b.remaining.Keys), codes)
            && LatchIsExact(t)
            && |t.remaining| + t.latch == |b.remaining|
            && |t.attempts| == |b.attempts| + t.latch
  {
    hide Before, Find;
    var t := NextTarget(b);
    Sizes(b.remaining);
    if b.remaining.Keys != {} {
      var n := Least(b.remaining.Keys);
      assert t.remaining.Keys == b.remaining.Keys - {n} && n in b.remaining.Keys;
      Sizes(t.remaining);
      assert Names(t.attempts) == Names(b.attempts) + [n];
    }
  }

  lemma Sizes(m: map<Name, seq<Load>>)
    ensures |m| == |m.Keys|
  {
  }

  lemma {:induction false} RunRefines(b: Batch, es: seq<Event>)
    requires LatchIsExact(b) && Possible(b, es)
    ensures var t := After(b, es);
            && Names(t.attempts) == Names(b.attempts) + ToCome(b, Codes(es))
            && LatchIsExact(t)
            && |Codes(es)| + |t.remaining| + t.latch <= |b.remaining| + b.latch
            && |t.attempts| + b.latch == |b.attempts| + |Codes(es)| + t.latch
    decreases |es|
  {
    hide NextTarget, Names, Attempted, Sorted;
    if es != [] {
      match es[0] {
        case Finished(code) =>
          if code == OPERATION_COMPLETED {
            NextAttempt(b.(running := None), Codes(es[1..]));
          }
        case Status(code, threw) =>
      }
      RunRefines(Step(b, es[0]), es[1..]);
    }
  }

  // ---- Whose loads go where --------------------------------------------------------------------------------------------------

  ghost predicate BatchInv(targets: map<Name, Address>, batch: map<Name, seq<Load>>, b: Batch) {
    && b.targets == targets
    && (forall n <- b.remaining :: n in batch && b.remaining[n] == batch[n])
    && (forall a <- b.attempts :: a.name in batch && a.name !in b.remaining && a.address == Find(targets, a.name))
    && (b.running.Some? ==>
          b.attempts != [] && b.attempts[|b.attempts| - 1].name == b.running.value && b.loads == batch[b.running.value])
    && SentOnce(batch, b)
  }

  ghost predicate SentOnce(batch: map<Name, seq<Load>>, b: Batch) {
    && (forall l <- b.sent :: l.0 in batch && l.0 !in b.remaining && l.1 == batch[l.0])
    && (forall i, j :: 0 <= i < j < |b.sent| ==> b.sent[i].0 != b.sent[j].0)
    && (b.running.Some? && !b.transmitted ==> forall l <- b.sent :: l.0 != b.running.value)
  }

  lemma NextTargetKeeps(targets: map<Name, Address>, batch: map<Name, seq<Load>>, b: Batch)
    requires BatchInv(targets, batch, b) && b.running == None
    ensures BatchInv(targets, batch, NextTarget(b))
  {
  }

  lemma StepKeeps(targets: map<Name, Address>, batch: map<Name, seq<Load>>, b: Batch, e: Event)
    requires BatchInv(targets, batch, b) && (e.Finished? ==> b.running.Some?)
    ensures BatchInv(targets, batch, Step(b, e))
  {
    hide NextTarget;
    if e.Finished? && e.code == OPERATION_COMPLETED {
      NextTargetKeeps(targets, batch, b.(running := None));
    }
  }

  lemma {:induction false} RunKeeps(targets: map<Name, Address>, batch: map<Name, seq<Load>>, b: Batch, es: seq<Event>)
    requires BatchInv(targets, batch, b) && Possible(b, es)
    ensures BatchInv(targets, batch, After(b, es))
    decreases |es|
  {
    hide BatchInv, Step;
    if es != [] {
      StepKeeps(targets, batch, b, es[0]);
      RunKeeps(targets, batch, Step(b, es[0]), es[1..]);
    }
  }

  // ---- Main results ------------------------------------------------------------------------------------------------------------

  /** The state in which `execute` waits, after its check of the targets has passed. */
  ghost function Started(targets: map<Name, Address>, batch: map<Name, seq<Load>>): Batch {
    NextTarget(Loaded(targets, batch))
  }

  /**
   * If every operation reports `finished` once, the attempted targets are the ones in their order up to and including
   * the first that does not complete; the latch is counted down exactly when none is running any more; and there are
   * at most as many reports as targets.
   */
  lemma BatchRefinesList(targets: map<Name, Address>, batch: map<Name, seq<Load>>, es: seq<Event>)
    requires Possible(Started(targets, batch), es)
    ensures var t, order, codes := After(Started(targets, batch), es), Sorted(batch.Keys), Codes(es);
            && Names(t.attempts) == Attempted(order, codes)
            && t.latch == (if t.running.Some? then 1 else 0)
            && |t.attempts| == |codes| + t.latch && |codes| <= |batch|
  {
    hide NextTarget, After, Possible, Attempted, Sorted;
    NextAttempt(Loaded(targets, batch), Codes(es));
    RunRefines(Started(targets, batch), es);
  }

  /** A batch that is over has attempted all targets, or the last one it attempted did not complete. */
  lemma BatchIsOver(targets: map<Name, Address>, batch: map<Name, seq<Load>>, es: seq<Event>)
    requires Possible(Started(targets, batch), es) && After(Started(targets, batch), es).running == None
    ensures var attempts, codes := Names(After(Started(targets, batch), es).attempts), Codes(es);
            && Ascending(attempts) && |attempts| == |codes|
            && (forall i :: 0 <= i < |codes| - 1 ==> codes[i] == OPERATION_COMPLETED)
            && ((forall n <- batch :: n in attempts) || (codes != [] && codes[|codes| - 1] != OPERATION_COMPLETED))
  {
    hide Started, After, Possible, Attempted, Sorted, Before;
    BatchRefinesList(targets, batch, es);
    AttemptedIsPrefix(Sorted(batch.Keys), Codes(es));
    SortedIsOrder(batch.Keys);
  }

  /**
   * After the check of the targets every address is found; the running operation has the loads of its target; and
   * every target is sent its own loads at most once.
   */
  lemma TargetsGetTheirLoads(targets: map<Name, Address>, batch: map<Name, seq<Load>>, es: seq<Event>)
    requires Possible(Started(targets, batch), es) && batch.Keys <= targets.Keys
    ensures var t := After(Started(targets, batch), es);
            && (forall a <- t.attempts :: a.name in batch && a.address == Some(targets[a.name]))
            && (t.running.Some? ==> t.running.value in batch && t.loads == batch[t.running.value])
            && (forall l <- t.sent :: l.0 in batch && l.1 == batch[l.0])
            && (forall i, j :: 0 <= i < j < |t.sent| ==> t.sent[i].0 != t.sent[j].0)
  {
    hide NextTarget, After, Possible;
    NextTargetKeeps(targets, batch, Loaded(targets, batch));
    RunKeeps(targets, batch, Started(targets, batch), es);
  }

  /** In every state of the run, the latch is one if an operation is running and else zero. */
  ghost predicate AlwaysExact(b: Batch, es: seq<Event>)
    decreases |es|
  {
    LatchIsExact(b) && (es != [] ==> AlwaysExact(Step(b, es[0]), es[1..]))
  }

  lemma {:induction false} AlwaysExactIff(b: Batch, es: seq<Event>)
    requires LatchIsExact(b)
    ensures AlwaysExact(b, es) <==> Possible(b, es)
    decreases |es|
  {
    hide NextTarget, Names, Attempted, Sorted;
    if es != [] {
      var c := Step(b, es[0]);
      if es[0].Finished? && b.running == None {
        LateReport(b, es[0].code);
      } else {
        if es[0] == Finished(OPERATION_COMPLETED) {
          NextAttempt(b.(running := None), []);
        }
        AlwaysExactIff(c, es[1..]);
      }
    }
  }

  /** A report that comes when no operation is running takes the latch out of step, whatever its code. */
  lemma LateReport(b: Batch, code: uint16)
    requires b.running == None && b.latch == 0
    ensures !LatchIsExact(OperationFinished(b, code))
  {
  }

  /**
   * With any reports at any time, the latch is exact throughout the run if and only if no report comes when no
   * operation is running.
   */
  lemma LatchIsExactIff(targets: map<Name, Address>, batch: map<Name, seq<Load>>, es: seq<Event>)
    ensures AlwaysExact(Started(targets, batch), es) <==> Possible(Started(targets, batch), es)
  {
    hide NextTarget;
    NextAttempt(Loaded(targets, batch), []);
    AlwaysExactIff(Started(targets, batch), es);
  }

  /** A second report of an operation that did not complete takes the latch out of step, below zero if it failed again. */
  lemma SecondReportBreaksTheLatch(b: Batch, code: uint16, code': uint16)
    requires b.running.Some? && b.latch == 1 && code != OPERATION_COMPLETED
    ensures !LatchIsExact(OperationFinished(OperationFinished(b, code), code'))
    ensures code' != OPERATION_COMPLETED ==> OperationFinished(OperationFinished(b, code), code').latch == -1
  {
    LateReport(OperationFinished(b, code), code');
  }

  /** A status makes the command hand over its list exactly if its code is 0x0001, none has gone out, and it can. */
  lemma StatusIsAnswered(b: Batch, code: uint16, threw: bool)
    requires b.running.Some?
    ensures var c := Step(b, Event.Status(code, threw));
            if code == 0x0001 && !b.transmitted && !threw then
              c == b.(transmitted := true, sent := b.sent + [(b.running.value, b.loads)])
            else c == b
  {
  }

  // ---- The command -----------------------------------------------------------------------------------------------------------

  class BatchUploadOperationCommand {
    const targets: map<Name, Address>
    const dlpTimeout: nat
    var batchTargets: map<Name, seq<Load>>
    var loads: seq<Load>
    var operation: HostOperation?
    var loadListTransmitted: bool
    var done: int                       // the latch
    ghost var current: Name
    ghost var attempts: seq<Attempt>
    ghost var sent: seq<(Name, seq<Load>)>

    ghost function View(): Batch
      reads this
    {
      Batch(targets, batchTargets, if operation == null then None else Some(current), loads, loadListTransmitted, done,
            attempts, sent)
    }

    constructor (targets: map<Name, Address>, batch: map<Name, seq<Load>>, dlpTimeout: nat)
      ensures View() == Loaded(targets, batch)
    {
      this.targets, this.dlpTimeout, batchTargets, loads := targets, dlpTimeout, batch, [];
      operation, loadListTransmitted, done, current, attempts, sent := null, false, 1, "", [], [];
    }

    /** The first target of the batch that is not in the targets list. */
    method MissingTarget() returns (missing: Option<Name>)
      ensures missing == None <==> batchTargets.Keys <= targets.Keys
      ensures missing.Some? ==>
                && missing.value in batchTargets && missing.value !in targets
                && forall n <- batchTargets :: Before(n, missing.value) ==> n in targets
    {
      var rest := batchTargets.Keys;
      while rest != {}
        invariant rest <= batchTargets.Keys
        invariant forall n <- batchTargets :: n in rest || n in targets
        invariant forall n <- batchTargets, m <- rest :: n !in rest ==> Before(n, m)
        decreases |rest|
      {
        LeastExists(rest);
        var n :| IsLeast(n, rest);
        if n !in targets {
          forall m <- batchTargets | Before(m, n) ensures m in targets {
            Trichotomy(m, n);
          }
          return Some(n);
        }
        rest := rest - {n};
      }
      return None;
    }

    /** Starts the batch unless a target is missing. */
    method Execute() returns (started: bool)
      requires operation == null
      modifies this
      ensures started <==> old(batchTargets.Keys) <= targets.Keys
      ensures View() == if started then NextTarget(old(View())) else old(View())
    {
      var missing := MissingTarget();
      started := missing == None;
      if started {
        NextBatchTarget();
      }
    }

    method NextBatchTarget()
      requires operation == null && batchTargets.Keys <= targets.Keys
      modifies this
      ensures View() == NextTarget(old(View()))
      ensures operation != null ==>
                && fresh(operation)
                && operation.View() == S.Start(S.Initial(S.Upload, F.ParseTargetId(current), dlpTimeout))
    {
      hide S.Start, S.Initial;
      if batchTargets.Keys == {} {
        done := done - 1;
        return;
      }
      LeastExists(batchTargets.Keys);
      var target :| IsLeast(target, batchTargets.Keys);
      LeastIsUnique(target, Least(batchTargets.Keys), batchTargets.Keys);
      var address := targets[target];
      attempts := attempts + [Attempt(target, Some(address))];
      loadListTransmitted := false;
      loads := batchTargets[target];
      batchTargets := batchTargets - {target};
      current := target;
      var upload := new HostOperation(S.Upload, F.ParseTargetId(target), dlpTimeout);
      upload.Start();
      operation := upload;
    }

    /** The callback for the end of an operation. */
    method Finished(code: uint16)
      requires batchTargets.Keys <= targets.Keys
      modifies this
      ensures View() == OperationFinished(old(View()), code)
    {
      hide NextTarget;
      operation := null;
      if code != OPERATION_COMPLETED {
        done := done - 1;
        return;
      }
      NextBatchTarget();
    }

    /** The callback for a status. */
    method Status(code: uint16) returns (threw: bool)
      requires operation != null
      modifies this, operation
      ensures operation == old(operation)
      ensures View() == StatusSeen(old(View()), code, threw)
      ensures code == OPERATION_ACCEPTED && !old(loadListTransmitted) ==>
                && operation.View() == S.DoSubmit(old(operation.View()), S.LoadList(old(loads)))
                && threw == S.SubmitThrows(old(operation.View()), S.LoadList(old(loads)))
      ensures !(code == OPERATION_ACCEPTED && !old(loadListTransmitted)) ==>
                operation.View() == old(operation.View()) && !threw
    {
      hide S.DoSubmit, S.SubmitThrows;
      threw := false;
      if code == OPERATION_ACCEPTED && !loadListTransmitted {
        var loadsList: seq<Load> := [];
        for i := 0 to |loads|
          invariant loadsList == loads[..i]
        {
          loadsList := loadsList + [loads[i]];
        }
        assert loadsList == loads;
        threw := operation.Submit(S.LoadList(loadsList));
        if threw {
          return;
        }
        sent := sent + [(current, loadsList)];
        loadListTransmitted := true;
      }
    }
  }
}
