/**
  * Background tasks: the row of a task over the attempts its queue makes, with progress
  * reports that are not awaited and may arrive at any later moment.
  */
module Tasks {
  import opened Basics

  datatype TaskState = Queued | Running | Succeeded | Failed

  datatype Task = Task(state: TaskState, progress: int, error: Option<string>, finished: bool)

  const CREATED := Task(Queued, 0, None, false)

  const ATTEMPTS := 3

  /** How an attempt ends: the handler throws, or it returns and pruning old backups throws, or
    * neither does. */
  datatype Outcome = HandlerThrows(error: string) | PruneThrows(error: string) | Returns

  datatype Write = Start | Report(progress: int) | Succeed | Fail(error: string)

  function Apply(task: Task, write: Write): Task {
    match write
    case Start => task.(state := Running, progress := 0)
    case Report(p) => task.(progress := p)
    case Succeed => task.(state := Succeeded, progress := 100, finished := true)
    case Fail(e) => task.(state := Failed, error := Some(e), finished := true)
  }

  function ApplyAll(task: Task, writes: seq<Write>): Task {
    if writes == [] then task else Apply(ApplyAll(task, writes[..|writes| - 1]), writes[|writes| - 1])
  }

  function Closing(outcome: Outcome, attemptsMade: nat): seq<Write> {
    (if outcome.HandlerThrows? then [] else [Succeed])
    + (if !outcome.Returns? && attemptsMade + 1 >= ATTEMPTS then [Fail(outcome.error)] else [])
  }

  /** The awaited writes of one attempt. */
  function AttemptWrites(outcome: Outcome, attemptsMade: nat): seq<Write> { [Start] + Closing(outcome, attemptsMade) }

  function Reports(progress: seq<int>): seq<Write> {
    seq(|progress|, i requires 0 <= i < |progress| => Report(progress[i]))
  }

  /** The awaited writes, after the n-th of them the reports that arrive before the next. */
  function Merged(awaited: seq<Write>, arriving: nat -> seq<int>): seq<Write> {
    if awaited == [] then []
    else
      var n := |awaited| - 1;
      Merged(awaited[..n], arriving) + [awaited[n]] + Reports(arriving(n))
  }

  class Job {
    var task: Task
    var attemptsMade: nat
    /** How many awaited writes the row has seen. */
    var awaited: nat

    constructor ()
      ensures task == CREATED && attemptsMade == 0 && awaited == 0
    {
      task, attemptsMade, awaited := CREATED, 0, 0;
    }

    /** The row after these awaited writes and the reports that have arrived among them. */
    ghost predicate At(writes: seq<Write>, arriving: nat -> seq<int>)
      reads this`task, this`awaited
    {
      awaited == |writes| && RowAt(task, writes, arriving)
    }

    /** The updates of progress that are not awaited, as they arrive. */
    method Relay(progress: seq<int>)
      modifies this`task
      ensures task == ApplyAll(old(task), Reports(progress))
    {
      for i := 0 to |progress|
        invariant task == ApplyAll(old(task), Reports(progress[..i]))
      {
        assert Reports(progress[..i + 1]) == Reports(progress[..i]) + [Report(progress[i])];
        ApplySnoc(old(task), Reports(progress[..i]), Report(progress[i]));
        task := task.(progress := progress[i]);
      }
      assert progress[..|progress|] == progress;
    }

    method Begin(arriving: nat -> seq<int>, ghost before: seq<Write>)
      requires At(before, arriving)
      modifies this`task, this`awaited
      ensures At(before + [Start], arriving)
    {
      Put(task, before, Start, arriving);
      task := task.(state := Running, progress := 0);
      Relay(arriving(awaited));
      awaited := awaited + 1;
    }

    method Complete(arriving: nat -> seq<int>, ghost before: seq<Write>)
      requires At(before, arriving)
      modifies this`task, this`awaited
      ensures At(before + [Succeed], arriving)
    {
      Put(task, before, Succeed, arriving);
      task := task.(state := Succeeded, progress := 100, finished := true);
      Relay(arriving(awaited));
      awaited := awaited + 1;
    }

    method GiveUp(error: string, arriving: nat -> seq<int>, ghost before: seq<Write>)
      requires At(before, arriving)
      modifies this`task, this`awaited
      ensures At(before + [Fail(error)], arriving)
    {
      Put(task, before, Fail(error), arriving);
      task := task.(state := Failed, error := Some(error), finished := true);
      Relay(arriving(awaited));
      awaited := awaited + 1;
    }

    /** One attempt; what it throws makes the queue retry. */
    method Process(outcome: Outcome, arriving: nat -> seq<int>, ghost before: seq<Write>, ghost after: seq<Write>)
      returns (thrown: bool)
      requires At(before, arriving) && after == before + AttemptWrites(outcome, attemptsMade)
      modifies this`task, this`awaited
      ensures thrown == !outcome.Returns?
      ensures At(after, arriving)
    {
      Begin(arriving, before);
      ghost var writes := before + [Start];
      if !outcome.HandlerThrows? {
        Complete(arriving, writes);
        writes := writes + [Succeed];
      }
      if !outcome.Returns? && attemptsMade + 1 >= ATTEMPTS {
        GiveUp(outcome.error, arriving, writes);
        writes := writes + [Fail(outcome.error)];
      }
      assert writes == after;
      return !outcome.Returns?;
    }

    method Attempt(outcome: Outcome, arriving: nat -> seq<int>, ghost before: seq<Write>)
      returns (retry: bool, ghost writes: seq<Write>)
      requires At(before, arriving)
      modifies this
      ensures attemptsMade == old(attemptsMade) + 1
      ensures writes == before + AttemptWrites(outcome, old(attemptsMade)) && At(writes, arriving)
      ensures retry == Retried(outcome, old(attemptsMade))
    {
      writes := before + AttemptWrites(outcome, attemptsMade);
      var thrown := Process(outcome, arriving, before, writes);
      retry := thrown && attemptsMade + 1 < ATTEMPTS;
      attemptsMade := attemptsMade + 1;
    }

    /** The queue: attempts until one does not throw, three at most. */
    method Work(outcomes: nat -> Outcome, arriving: nat -> seq<int>)
      requires task == CREATED && attemptsMade == 0 && awaited == 0
      modifies this
      ensures task == ApplyAll(CREATED, Merged(Awaited(outcomes, 0), arriving))
    {
      ghost var writes := [];
      NothingYet(outcomes, arriving);
      var retry := true;
      while retry
        invariant attemptsMade <= ATTEMPTS
        invariant At(writes, arriving) && Covers(writes, outcomes, attemptsMade, retry)
        decreases ATTEMPTS - attemptsMade
      {
        ghost var more := AttemptCovers(writes, outcomes, attemptsMade);
        retry, writes := Attempt(outcomes(attemptsMade), arriving, writes);
      }
    }
  }

  ghost predicate RowAt(task: Task, writes: seq<Write>, arriving: nat -> seq<int>) {
    task == ApplyAll(CREATED, Merged(writes, arriving))
  }

  lemma MergedSnoc(writes: seq<Write>, next: Write, arriving: nat -> seq<int>)
    ensures Merged(writes + [next], arriving) == Merged(writes, arriving) + [next] + Reports(arriving(|writes|))
  {
    assert (writes + [next])[..|writes|] == writes;
  }

  lemma Put(task: Task, writes: seq<Write>, next: Write, arriving: nat -> seq<int>)
    requires RowAt(task, writes, arriving)
    ensures RowAt(ApplyAll(Apply(task, next), Reports(arriving(|writes|))), writes + [next], arriving)
  {
    MergedSnoc(writes, next, arriving);
    ApplyConcat(CREATED, Merged(writes, arriving) + [next], Reports(arriving(|writes|)));
    ApplySnoc(CREATED, Merged(writes, arriving), next);
  }

  /** The writes so far are those of the attempts made: the job's, if there is no retry. */
  ghost predicate Covers(writes: seq<Write>, outcomes: nat -> Outcome, attemptsMade: nat, retry: bool) {
    if retry then attemptsMade < ATTEMPTS && writes + Awaited(outcomes, attemptsMade) == Awaited(outcomes, 0)
    else writes == Awaited(outcomes, 0)
  }

  lemma NothingYet(outcomes: nat -> Outcome, arriving: nat -> seq<int>)
    ensures RowAt(CREATED, [], arriving) && Covers([], outcomes, 0, true)
  {
    assert [] + Awaited(outcomes, 0) == Awaited(outcomes, 0);
  }

  lemma AttemptCovers(writes: seq<Write>, outcomes: nat -> Outcome, i: nat) returns (more: seq<Write>)
    requires Covers(writes, outcomes, i, true)
    ensures more == writes + AttemptWrites(outcomes(i), i)
    ensures Covers(more, outcomes, i + 1, Retried(outcomes(i), i))
  {
    more := writes + AttemptWrites(outcomes(i), i);
    Associate(writes, [Start] + Closing(outcomes(i), i),
      if Retried(outcomes(i), i) then Awaited(outcomes, i + 1) else []);
  }

  lemma Associate(a: seq<Write>, b: seq<Write>, c: seq<Write>)
    ensures (a + b) + c == a + (b + c)
  {
  }

  predicate Retried(outcome: Outcome, attemptsMade: nat) { !outcome.Returns? && attemptsMade + 1 < ATTEMPTS }

  lemma ApplySnoc(task: Task, writes: seq<Write>, last: Write)
    ensures ApplyAll(task, writes + [last]) == Apply(ApplyAll(task, writes), last)
  {
    assert (writes + [last])[..|writes|] == writes;
  }

  lemma ApplyOne(task: Task, write: Write)
    ensures ApplyAll(task, [write]) == Apply(task, write)
  {
    assert [write][..0] == [];
  }

  function Closed(task: Task, outcome: Outcome, attemptsMade: nat): Task {
    var handled := if outcome.HandlerThrows? then task else Apply(task, Succeed);
    if !outcome.Returns? && attemptsMade + 1 >= ATTEMPTS then Apply(handled, Fail(outcome.error)) else handled
  }

  lemma ClosingInParts(task: Task, outcome: Outcome, attemptsMade: nat)
    ensures ApplyAll(task, Closing(outcome, attemptsMade)) == Closed(task, outcome, attemptsMade)
  {
    var first := if outcome.HandlerThrows? then [] else [Succeed];
    var second := if !outcome.Returns? && attemptsMade + 1 >= ATTEMPTS then [Fail(outcome.error)] else [];
    ApplyConcat(task, first, second);
    ApplyOne(task, Succeed);
    if second != [] { ApplyOne(ApplyAll(task, first), second[0]); }
  }

  // ---------------------------------------------------------------------------
  // Arrival orders

  /** The awaited writes of a job from one attempt on, in order. */
  function Awaited(outcomes: nat -> Outcome, attemptsMade: nat): seq<Write>
    requires attemptsMade < ATTEMPTS
    decreases ATTEMPTS - attemptsMade
  {
    [Start] + Closing(outcomes(attemptsMade), attemptsMade)
    + (if Retried(outcomes(attemptsMade), attemptsMade) then Awaited(outcomes, attemptsMade + 1) else [])
  }

  function Kept(write: Write): seq<Write> { if write.Report? then [] else [write] }

  function WithoutReports(writes: seq<Write>): seq<Write> {
    if writes == [] then [] else WithoutReports(writes[..|writes| - 1]) + Kept(writes[|writes| - 1])
  }

  /** The writes of a job, its reports anywhere among them or after them. */
  ghost predicate Arrives(writes: seq<Write>, outcomes: nat -> Outcome) {
    WithoutReports(writes) == Awaited(outcomes, 0)
  }

  lemma {:induction false} ApplyConcat(task: Task, a: seq<Write>, b: seq<Write>)
    ensures ApplyAll(task, a + b) == ApplyAll(ApplyAll(task, a), b)
  {
    if b == [] {
      assert a + b == a;
    } else {
      assert (a + b)[..|a + b| - 1] == a + b[..|b| - 1];
      ApplyConcat(task, a, b[..|b| - 1]);
    }
  }

  lemma {:induction false} KeptConcat(a: seq<Write>, b: seq<Write>)
    ensures WithoutReports(a + b) == WithoutReports(a) + WithoutReports(b)
  {
    if b == [] {
      assert a + b == a;
    } else {
      assert (a + b)[..|a + b| - 1] == a + b[..|b| - 1];
      KeptConcat(a, b[..|b| - 1]);
    }
  }

  lemma {:induction false} ReportsDropped(progress: seq<int>)
    ensures WithoutReports(Reports(progress)) == []
  {
    if progress != [] {
      assert Reports(progress)[..|progress| - 1] == Reports(progress[..|progress| - 1]);
      ReportsDropped(progress[..|progress| - 1]);
    }
  }

  ghost predicate NoReports(writes: seq<Write>) { forall i :: 0 <= i < |writes| ==> !writes[i].Report? }

  lemma {:induction false} AwaitedPlain(outcomes: nat -> Outcome, i: nat)
    requires i < ATTEMPTS
    ensures NoReports(Awaited(outcomes, i))
    decreases ATTEMPTS - i
  {
    if Retried(outcomes(i), i) { AwaitedPlain(outcomes, i + 1); }
  }

  lemma KeptSnoc(writes: seq<Write>, last: Write)
    ensures WithoutReports(writes + [last])
         == if last.Report? then WithoutReports(writes) else WithoutReports(writes) + [last]
  {
    assert (writes + [last])[..|writes|] == writes;
    assert WithoutReports(writes) + [] == WithoutReports(writes);
  }

  lemma KeptGroup(writes: seq<Write>, next: Write, progress: seq<int>)
    requires !next.Report?
    ensures WithoutReports(writes + [next] + Reports(progress)) == WithoutReports(writes) + [next]
  {
    KeptConcat(writes + [next], Reports(progress));
    KeptSnoc(writes, next);
    ReportsDropped(progress);
  }

  lemma {:induction false} MergedKept(awaited: seq<Write>, arriving: nat -> seq<int>)
    requires NoReports(awaited)
    ensures WithoutReports(Merged(awaited, arriving)) == awaited
  {
    if awaited != [] {
      var n := |awaited| - 1;
      var init := awaited[..n];
      assert awaited == init + [awaited[n]];
      MergedKept(init, arriving);
      MergedSnoc(init, awaited[n], arriving);
      KeptGroup(Merged(init, arriving), awaited[n], arriving(n));
    }
  }

  /** Whatever the schedule, what the row sees is an arrival order of the job's writes. */
  lemma ScheduleArrives(outcomes: nat -> Outcome, arriving: nat -> seq<int>)
    ensures Arrives(Merged(Awaited(outcomes, 0), arriving), outcomes)
  {
    AwaitedPlain(outcomes, 0);
    MergedKept(Awaited(outcomes, 0), arriving);
  }

  function Schedule(groups: seq<seq<int>>): nat -> seq<int> { (n: nat) => if n < |groups| then groups[n] else [] }

  lemma {:induction false} MergedSame(awaited: seq<Write>, f: nat -> seq<int>, g: nat -> seq<int>)
    requires forall n: nat :: n < |awaited| ==> f(n) == g(n)
    ensures Merged(awaited, f) == Merged(awaited, g)
  {
    if awaited != [] { MergedSame(awaited[..|awaited| - 1], f, g); }
  }

  /** Conversely, every order in which no report precedes the first awaited write comes from a
    * schedule. */
  lemma {:induction false} EveryOrderScheduled(writes: seq<Write>) returns (groups: seq<seq<int>>)
    requires writes != [] ==> !writes[0].Report?
    ensures |groups| == |WithoutReports(writes)| && (writes != [] ==> groups != [])
    ensures writes == Merged(WithoutReports(writes), Schedule(groups))
  {
    if writes == [] {
      groups := [];
    } else {
      var init, last := writes[..|writes| - 1], writes[|writes| - 1];
      assert writes == init + [last];
      assert init != [] ==> init[0] == writes[0];
      groups := EveryOrderScheduled(init);
      KeptSnoc(init, last);
      if last.Report? {
        groups := OneMoreReport(init, groups, last.progress);
      } else {
        groups := OneMoreWrite(init, groups, last);
      }
    }
  }

  lemma OneMoreWrite(init: seq<Write>, groups: seq<seq<int>>, last: Write) returns (more: seq<seq<int>>)
    requires |groups| == |WithoutReports(init)| && init == Merged(WithoutReports(init), Schedule(groups))
    ensures |more| == |groups| + 1
    ensures init + [last] == Merged(WithoutReports(init) + [last], Schedule(more))
  {
    more := groups + [[]];
    var awaited := WithoutReports(init);
    MergedSame(awaited, Schedule(groups), Schedule(more));
    MergedSnoc(awaited, last, Schedule(more));
    assert init + [last] + [] == init + [last];
  }

  lemma OneMoreReport(init: seq<Write>, groups: seq<seq<int>>, progress: int) returns (more: seq<seq<int>>)
    requires |groups| == |WithoutReports(init)| && groups != []
    requires init == Merged(WithoutReports(init), Schedule(groups))
    ensures |more| == |groups|
    ensures init + [Report(progress)] == Merged(WithoutReports(init), Schedule(more))
  {
    var awaited, n := WithoutReports(init), |groups| - 1;
    more := groups[n := groups[n] + [progress]];
    MergedSame(awaited[..n], Schedule(groups), Schedule(more));
    assert Reports(groups[n] + [progress]) == Reports(groups[n]) + [Report(progress)];
    var before := Merged(awaited[..n], Schedule(groups)) + [awaited[n]];
    assert (before + Reports(groups[n])) + [Report(progress)] == before + (Reports(groups[n]) + [Report(progress)]);
  }

  /** The state of the row after each awaited write of an arrival order. */
  function History(task: Task, writes: seq<Write>): seq<TaskState> {
    if writes == [] then []
    else
      History(task, writes[..|writes| - 1])
      + (if writes[|writes| - 1].Report? then [] else [ApplyAll(task, writes).state])
  }

  /** State and error of the row do not depend on the reports, nor on when they arrive. */
  lemma {:induction false} ReportsKeepState(task: Task, writes: seq<Write>)
    ensures ApplyAll(task, writes).state == ApplyAll(task, WithoutReports(writes)).state
    ensures ApplyAll(task, writes).error == ApplyAll(task, WithoutReports(writes)).error
  {
    if writes != [] {
      var before, last := writes[..|writes| - 1], writes[|writes| - 1];
      ReportsKeepState(task, before);
      if last.Report? {
        assert WithoutReports(before) + [] == WithoutReports(before);
      } else {
        ApplySnoc(task, WithoutReports(before), last);
      }
    }
  }

  lemma {:induction false} HistoryKept(task: Task, writes: seq<Write>)
    ensures History(task, writes) == History(task, WithoutReports(writes))
  {
    if writes != [] {
      var before, last := writes[..|writes| - 1], writes[|writes| - 1];
      HistoryKept(task, before);
      if last.Report? {
        assert WithoutReports(before) + [] == WithoutReports(before);
      } else {
        assert (WithoutReports(before) + [last])[..|WithoutReports(before)|] == WithoutReports(before);
        ReportsKeepState(task, writes);
      }
    }
  }

  // ---------------------------------------------------------------------------
  // The shape of a history

  function Target(write: Write): seq<TaskState> {
    match write case Start => [Running] case Report(_) => [] case Succeed => [Succeeded] case Fail(_) => [Failed]
  }

  function Targets(writes: seq<Write>): seq<TaskState> {
    if writes == [] then []
    else
      Targets(writes[..|writes| - 1]) + Target(writes[|writes| - 1])
  }

  lemma {:induction false} HistoryTargets(task: Task, writes: seq<Write>)
    ensures History(task, writes) == Targets(writes)
  {
    if writes != [] { HistoryTargets(task, writes[..|writes| - 1]); }
  }

  lemma TargetsSnoc(writes: seq<Write>, last: Write)
    ensures Targets(writes + [last]) == Targets(writes) + Target(last)
  {
    assert (writes + [last])[..|writes|] == writes;
  }

  lemma AssociateStates(a: seq<TaskState>, b: seq<TaskState>, c: seq<TaskState>)
    ensures (a + b) + c == a + (b + c)
  {
  }

  lemma {:induction false} TargetsConcat(a: seq<Write>, b: seq<Write>)
    ensures Targets(a + b) == Targets(a) + Targets(b)
  {
    if b == [] {
      assert a + b == a;
    } else {
      var init, last := b[..|b| - 1], b[|b| - 1];
      calc {
        Targets(a + b);
        { assert a + b == (a + init) + [last]; TargetsSnoc(a + init, last); }
        Targets(a + init) + Target(last);
        { TargetsConcat(a, init); }
        (Targets(a) + Targets(init)) + Target(last);
        { AssociateStates(Targets(a), Targets(init), Target(last)); }
        Targets(a) + (Targets(init) + Target(last));
        { assert b == init + [last]; TargetsSnoc(init, last); }
        Targets(a) + Targets(b);
      }
    }
  }

  lemma AttemptTargets(outcome: Outcome, attemptsMade: nat)
    ensures Targets([Start] + Closing(outcome, attemptsMade))
         == [Running] + (if outcome.HandlerThrows? then [] else [Succeeded])
          + (if !outcome.Returns? && attemptsMade + 1 >= ATTEMPTS then [Failed] else [])
  {
    TargetsConcat([Start], Closing(outcome, attemptsMade));
    TargetsConcat(if outcome.HandlerThrows? then [] else [Succeed],
      if !outcome.Returns? && attemptsMade + 1 >= ATTEMPTS then [Fail(outcome.error)] else []);
  }

  /** The states that the attempts from one on write. */
  function StatesFrom(outcomes: nat -> Outcome, i: nat): seq<TaskState>
    requires i < ATTEMPTS
  {
    Targets(Awaited(outcomes, i))
  }

  lemma LastAttemptStates(outcomes: nat -> Outcome, i: nat)
    requires i < ATTEMPTS && (outcomes(i).Returns? || i + 1 == ATTEMPTS)
    ensures StatesFrom(outcomes, i) == match outcomes(i)
      case Returns => [Running, Succeeded]
      case HandlerThrows(_) => [Running, Failed]
      case PruneThrows(_) => [Running, Succeeded, Failed]
  {
    AttemptTargets(outcomes(i), i);
    assert Awaited(outcomes, i) == [Start] + Closing(outcomes(i), i);
  }

  lemma EarlierAttemptWrites(outcomes: nat -> Outcome, i: nat)
    requires i + 1 < ATTEMPTS && !outcomes(i).Returns?
    ensures Awaited(outcomes, i) == [Start] + Closing(outcomes(i), i) + Awaited(outcomes, i + 1)
    ensures Targets([Start] + Closing(outcomes(i), i)) == AttemptStates(outcomes(i))
  {
    AttemptTargets(outcomes(i), i);
  }

  /** The states of an attempt that is not the last. */
  function AttemptStates(outcome: Outcome): seq<TaskState> {
    if outcome.HandlerThrows? then [Running] else [Running, Succeeded]
  }

  lemma EarlierAttemptStates(outcomes: nat -> Outcome, i: nat)
    requires i + 1 < ATTEMPTS && !outcomes(i).Returns?
    ensures StatesFrom(outcomes, i) == AttemptStates(outcomes(i)) + StatesFrom(outcomes, i + 1)
  {
    EarlierAttemptWrites(outcomes, i);
    TargetsConcat([Start] + Closing(outcomes(i), i), Awaited(outcomes, i + 1));
  }

  /** Every arrival order gives the history of the awaited writes. */
  lemma ArrivalHistory(outcomes: nat -> Outcome, writes: seq<Write>)
    requires Arrives(writes, outcomes)
    ensures History(CREATED, writes) == Targets(Awaited(outcomes, 0))
  {
    HistoryKept(CREATED, writes);
    HistoryTargets(CREATED, Awaited(outcomes, 0));
  }

  /** Some times running, at most `attempts`, then one terminal state. */
  ghost predicate Shape(states: seq<TaskState>, attempts: nat) {
    && 2 <= |states| <= attempts + 1
    && (forall i :: 0 <= i < |states| - 1 ==> states[i] == Running)
    && states[|states| - 1] in {Succeeded, Failed}
  }

  lemma ShapeCons(rest: seq<TaskState>, attempts: nat)
    requires rest != [] && rest[0] == Running
    ensures Shape([Running] + rest, attempts + 1) <==> Shape(rest, attempts)
    ensures !Shape([Running, Succeeded] + rest, attempts + 1)
  {
    var states := [Running] + rest;
    assert forall i :: 0 <= i < |rest| ==> rest[i] == states[i + 1];
    assert ([Running, Succeeded] + rest)[1] == Succeeded;
  }

  /** The states from an attempt on are some times running and then one terminal state. */
  ghost predicate ShapeAt(outcomes: nat -> Outcome, i: nat)
    requires i < ATTEMPTS
  {
    Shape(StatesFrom(outcomes, i), ATTEMPTS - i)
  }

  /** No attempt made from one on ends with pruning throwing. */
  ghost predicate NoPruneThrows(outcomes: nat -> Outcome, i: nat)
    requires i < ATTEMPTS
    decreases ATTEMPTS - i
  {
    !outcomes(i).PruneThrows? && (!outcomes(i).Returns? && i + 1 < ATTEMPTS ==> NoPruneThrows(outcomes, i + 1))
  }

  lemma StartsRunning(outcomes: nat -> Outcome, i: nat)
    requires i < ATTEMPTS
    ensures StatesFrom(outcomes, i) != [] && StatesFrom(outcomes, i)[0] == Running
  {
    if outcomes(i).Returns? || i + 1 == ATTEMPTS {
      LastAttemptStates(outcomes, i);
    } else {
      EarlierAttemptStates(outcomes, i);
    }
  }

  lemma LastAttemptShape(outcomes: nat -> Outcome, i: nat)
    requires i < ATTEMPTS && (outcomes(i).Returns? || i + 1 == ATTEMPTS)
    ensures ShapeAt(outcomes, i) <==> NoPruneThrows(outcomes, i)
  {
    LastAttemptStates(outcomes, i);
  }

  lemma EarlierAttemptShape(outcomes: nat -> Outcome, i: nat)
    requires i + 1 < ATTEMPTS && !outcomes(i).Returns?
    requires ShapeAt(outcomes, i + 1) <==> NoPruneThrows(outcomes, i + 1)
    ensures ShapeAt(outcomes, i) <==> NoPruneThrows(outcomes, i)
  {
    EarlierAttemptStates(outcomes, i);
    StartsRunning(outcomes, i + 1);
    ShapeCons(StatesFrom(outcomes, i + 1), ATTEMPTS - i - 1);
  }

  lemma {:induction false} ShapeFrom(outcomes: nat -> Outcome, i: nat)
    requires i < ATTEMPTS
    ensures ShapeAt(outcomes, i) <==> NoPruneThrows(outcomes, i)
    decreases ATTEMPTS - i
  {
    if outcomes(i).Returns? || i + 1 == ATTEMPTS {
      LastAttemptShape(outcomes, i);
    } else {
      ShapeFrom(outcomes, i + 1);
      EarlierAttemptShape(outcomes, i);
    }
  }

  /** All attempts from one on throw. */
  ghost predicate AllThrow(outcomes: nat -> Outcome, i: nat)
    requires i < ATTEMPTS
    decreases ATTEMPTS - i
  {
    !outcomes(i).Returns? && (i + 1 < ATTEMPTS ==> AllThrow(outcomes, i + 1))
  }

  function Last(states: seq<TaskState>, default: TaskState): TaskState {
    if states == [] then default else states[|states| - 1]
  }

  /** The states from an attempt on end as they should. */
  ghost predicate EndsAt(outcomes: nat -> Outcome, i: nat)
    requires i < ATTEMPTS
  {
    Last(StatesFrom(outcomes, i), Queued) == if AllThrow(outcomes, i) then Failed else Succeeded
  }

  lemma LastAttemptEnds(outcomes: nat -> Outcome, i: nat)
    requires i < ATTEMPTS && (outcomes(i).Returns? || i + 1 == ATTEMPTS)
    ensures EndsAt(outcomes, i)
  {
    LastAttemptStates(outcomes, i);
  }

  lemma EarlierAttemptEnds(outcomes: nat -> Outcome, i: nat)
    requires i + 1 < ATTEMPTS && !outcomes(i).Returns? && EndsAt(outcomes, i + 1)
    ensures EndsAt(outcomes, i)
  {
    EarlierAttemptStates(outcomes, i);
    LastAfter(AttemptStates(outcomes(i)), StatesFrom(outcomes, i + 1), StatesFrom(outcomes, i));
    StartsRunning(outcomes, i + 1);
  }

  lemma LastAfter(a: seq<TaskState>, b: seq<TaskState>, all: seq<TaskState>)
    requires all == a + b
    ensures b != [] ==> Last(all, Queued) == Last(b, Queued)
  {
  }

  lemma {:induction false} LastFrom(outcomes: nat -> Outcome, i: nat)
    requires i < ATTEMPTS
    ensures EndsAt(outcomes, i)
    decreases ATTEMPTS - i
  {
    if outcomes(i).Returns? || i + 1 == ATTEMPTS {
      LastAttemptEnds(outcomes, i);
    } else {
      LastFrom(outcomes, i + 1);
      EarlierAttemptEnds(outcomes, i);
    }
  }

  /** For every pattern of failures and every arrival order of the reports: the row is one to
    * three times running and then in one terminal state exactly when pruning throws in no
    * attempt made. */
  lemma HistoryShapeIff(outcomes: nat -> Outcome, writes: seq<Write>)
    requires Arrives(writes, outcomes)
    ensures Shape(History(CREATED, writes), 3) <==>
      !outcomes(0).PruneThrows?
      && (outcomes(0).HandlerThrows? ==>
            !outcomes(1).PruneThrows? && (outcomes(1).HandlerThrows? ==> !outcomes(2).PruneThrows?))
  {
    ArrivalHistory(outcomes, writes);
    ShapeFrom(outcomes, 0);
    PruneThrowsIn(outcomes);
  }

  lemma PruneThrowsIn(outcomes: nat -> Outcome)
    ensures NoPruneThrows(outcomes, 0) <==>
      !outcomes(0).PruneThrows?
      && (outcomes(0).HandlerThrows? ==>
            !outcomes(1).PruneThrows? && (outcomes(1).HandlerThrows? ==> !outcomes(2).PruneThrows?))
  {
    assert NoPruneThrows(outcomes, 2) <==> !outcomes(2).PruneThrows?;
    assert NoPruneThrows(outcomes, 1) <==>
      !outcomes(1).PruneThrows? && (!outcomes(1).Returns? ==> NoPruneThrows(outcomes, 2));
  }

  lemma AllThreeThrow(outcomes: nat -> Outcome)
    ensures AllThrow(outcomes, 0) <==> !outcomes(0).Returns? && !outcomes(1).Returns? && !outcomes(2).Returns?
  {
    assert AllThrow(outcomes, 2) <==> !outcomes(2).Returns?;
    assert AllThrow(outcomes, 1) <==> !outcomes(1).Returns? && AllThrow(outcomes, 2);
  }

  lemma {:induction false} HistoryEnds(task: Task, writes: seq<Write>)
    ensures ApplyAll(task, writes).state == Last(History(task, writes), task.state)
  {
    if writes != [] { HistoryEnds(task, writes[..|writes| - 1]); }
  }

  /** The task ends failed exactly when all three attempts throw, else succeeded. */
  lemma FinalState(outcomes: nat -> Outcome, writes: seq<Write>)
    requires Arrives(writes, outcomes)
    ensures ApplyAll(CREATED, writes).state
         == if !outcomes(0).Returns? && !outcomes(1).Returns? && !outcomes(2).Returns? then Failed else Succeeded
    ensures ApplyAll(CREATED, writes).finished
  {
    ArrivalHistory(outcomes, writes);
    LastFrom(outcomes, 0);
    HistoryEnds(CREATED, writes);
    AllThreeThrow(outcomes);
    EndedIsFinished(CREATED, writes);
  }

  /** Whatever is written, a row in a terminal state is marked finished. */
  lemma {:induction false} EndedIsFinished(task: Task, writes: seq<Write>)
    requires task.state in {Succeeded, Failed} ==> task.finished
    ensures ApplyAll(task, writes).state in {Succeeded, Failed} ==> ApplyAll(task, writes).finished
  {
    if writes != [] { EndedIsFinished(task, writes[..|writes| - 1]); }
  }

  function ErrorOf(outcome: Outcome): Option<string> { if outcome.Returns? then None else Some(outcome.error) }

  lemma StartAndClosing(task: Task, outcome: Outcome, i: nat)
    ensures ApplyAll(task, [Start] + Closing(outcome, i)) == Closed(Apply(task, Start), outcome, i)
  {
    ApplyConcat(task, [Start], Closing(outcome, i));
    ApplyOne(task, Start);
    ClosingInParts(Apply(task, Start), outcome, i);
  }

  lemma {:induction false} AwaitedError(task: Task, outcomes: nat -> Outcome, i: nat)
    requires i < ATTEMPTS && task.error == None
    ensures ApplyAll(task, Awaited(outcomes, i)).error
         == if AllThrow(outcomes, i) then ErrorOf(outcomes(ATTEMPTS - 1)) else None
    decreases ATTEMPTS - i
  {
    var attempt := [Start] + Closing(outcomes(i), i);
    var next := Closed(Apply(task, Start), outcomes(i), i);
    StartAndClosing(task, outcomes(i), i);
    if Retried(outcomes(i), i) {
      ApplyConcat(task, attempt, Awaited(outcomes, i + 1));
      AwaitedError(next, outcomes, i + 1);
    } else {
      assert Awaited(outcomes, i) == attempt;
    }
  }

  /** The row names an error exactly when the task failed: the last attempt's. */
  lemma FinalError(outcomes: nat -> Outcome, writes: seq<Write>)
    requires Arrives(writes, outcomes)
    ensures ApplyAll(CREATED, writes).error
         == if !outcomes(0).Returns? && !outcomes(1).Returns? && !outcomes(2).Returns? then Some(outcomes(2).error)
            else None
  {
    ReportsKeepState(CREATED, writes);
    AwaitedError(CREATED, outcomes, 0);
    AllThreeThrow(outcomes);
  }

  lemma LateReports(task: Task, late: seq<int>)
    ensures ApplyAll(task, Reports(late)).progress == if late == [] then task.progress else late[|late| - 1]
    ensures ApplyAll(task, Reports(late)).state == task.state
  {
    ReportsKeepState(task, Reports(late));
    ReportsDropped(late);
  }

  /** An attempt starts at progress 0 and shows the last report since. */
  lemma RunningProgress(task: Task, writes: seq<Write>, since: seq<int>)
    ensures var row := ApplyAll(task, writes + [Start] + Reports(since));
      row.state == Running && row.progress == if since == [] then 0 else since[|since| - 1]
  {
    ApplyConcat(task, writes + [Start], Reports(since));
    ApplySnoc(task, writes, Start);
    LateReports(ApplyAll(task, writes + [Start]), since);
  }

  /** The last awaited write of a succeeded task sets full progress, which only reports arriving
    * after it overwrite. */
  lemma FinalProgress(task: Task, writes: seq<Write>, late: seq<int>)
    requires writes != [] && !writes[|writes| - 1].Report?
    requires ApplyAll(task, writes + Reports(late)).state == Succeeded
    ensures ApplyAll(task, writes + Reports(late)).progress == if late == [] then 100 else late[|late| - 1]
  {
    ApplyConcat(task, writes, Reports(late));
    LateReports(ApplyAll(task, writes), late);
  }
}
