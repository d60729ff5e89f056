/** The bounded parallel runner `parallelForEach`, as a machine of atomic steps.

    One launcher and its goroutines interleave freely.  A state records the
    semaphore, the wait group, the mutex, the context's cancellation flag and
    `firstErr`; a `Step` is one atomic action of one of the parties.  Every
    theorem is about an arbitrary run, that is, an arbitrary interleaving with
    arbitrary results of `fn`. */
module Parallel {
  import opened Wrappers

  /** The capacity of the semaphore. */
  const MAX_PARALLEL_TRANSFERS: nat := 8

  type Error = string

  /** Where a goroutine stands.  The stages from `Spawned` to `Releasing` hold a
      semaphore slot: the deferred receive runs before the deferred `wg.Done`. */
  datatype Stage =
    | Spawned            // about to test ctx.Err()
    | Admitted           // the test found no error; about to call fn
    | Calling            // fn in flight
    | Blocked(err: Error) // fn returned err; about to lock mu
    | Holding(err: Error) // holds mu; about to test firstErr
    | Cancelling         // holds mu; wrote firstErr; about to call cancel
    | Unlocking          // holds mu; about to unlock it
    | Releasing          // about to receive from sem
    | Finishing          // about to call wg.Done
    | Finished

  /** What the call of `fn` produced so far. */
  datatype Outcome = NotReturned | Succeeded | Failed(error: Error)

  /** A goroutine with the history of its calls of `fn`. */
  datatype Worker = Worker(stage: Stage, calls: nat, outcome: Outcome)

  datatype Result = Nil | FnError(error: Error) | ContextError

  datatype Launcher =
    | Testing      // about to take the next item, or to leave the loop
    | Acquiring    // blocked on the send to sem
    | Adding       // about to call wg.Add(1)
    | Spawning     // about to start the goroutine
    | Waiting      // in wg.Wait()
    | ReadingErr   // about to read firstErr
    | ReadingCtx   // about to evaluate ctx.Err()
    | Returned(result: Result)

  /** `lockLog` lists the goroutines in the order they took the mutex, and
      `writes` counts the assignments to `firstErr`.  `parentDone` says whether the parent context is
      done, and `reached` whether its cancellation has reached the derived context. */
  datatype State = State(
    items: nat,
    pc: Launcher,
    workers: seq<Worker>,
    slots: nat,
    group: nat,
    mutex: Option<nat>,
    cancelled: bool,
    parentDone: bool,
    reached: bool,
    firstErr: Option<Error>,
    lockLog: seq<nat>,
    writes: nat)

  datatype Step =
    | TestCtx | TakeSlot | AddToGroup | Spawn | WaitAll | ReadFirstErr | ReadCtxErr
    | WorkerTest(i: nat)
    | CallFn(i: nat)
    | ReturnFn(i: nat, result: Option<Error>)
    | Lock(i: nat)
    | CheckFirst(i: nat)
    | Cancel(i: nat)
    | Unlock(i: nat)
    | FreeSlot(i: nat)
    | FinishWorker(i: nat)
    | ParentDone         // the parent context ends
    | Propagate          // its cancellation reaches the derived context, any time later

  function Init(items: nat): State {
    State(items, if items == 0 then Returned(Nil) else Testing, [], 0, 0, None, false, false, false, None, [], 0)
  }

  /** A parent context that is already done when the runner starts: a context derived from a done
      one is cancelled at once. */
  function InitCancelled(items: nat): State {
    Apply(Apply(Init(items), ParentDone), Propagate)
  }

  predicate At(s: State, i: nat, stage: Stage) {
    i < |s.workers| && s.workers[i].stage == stage
  }

  predicate Enabled(s: State, step: Step) {
    match step
    case TestCtx => s.pc.Testing?
    case TakeSlot => s.pc.Acquiring? && s.slots < MAX_PARALLEL_TRANSFERS
    case AddToGroup => s.pc.Adding?
    case Spawn => s.pc.Spawning?
    case WaitAll => s.pc.Waiting? && s.group == 0
    case ReadFirstErr => s.pc.ReadingErr?
    case ReadCtxErr => s.pc.ReadingCtx?
    case WorkerTest(i) => At(s, i, Spawned)
    case CallFn(i) => At(s, i, Admitted)
    case ReturnFn(i, _) => At(s, i, Calling)
    case Lock(i) => i < |s.workers| && s.workers[i].stage.Blocked? && s.mutex.None?
    case CheckFirst(i) => i < |s.workers| && s.workers[i].stage.Holding?
    case Cancel(i) => At(s, i, Cancelling)
    case Unlock(i) => At(s, i, Unlocking)
    case FreeSlot(i) => At(s, i, Releasing) && s.slots > 0
    case FinishWorker(i) => At(s, i, Finishing) && s.group > 0
    case ParentDone => true
    case Propagate => s.parentDone
  }

  function Move(s: State, i: nat, stage: Stage): State
    requires i < |s.workers|
  {
    s.(workers := s.workers[i := s.workers[i].(stage := stage)])
  }

  function Apply(s: State, step: Step): State
    requires Enabled(s, step)
  {
    match step
    case TestCtx =>
      s.(pc := if |s.workers| >= s.items || s.cancelled then Waiting else Acquiring)
    case TakeSlot => s.(pc := Adding, slots := s.slots + 1)
    case AddToGroup => s.(pc := Spawning, group := s.group + 1)
    case Spawn => s.(pc := Testing, workers := s.workers + [Worker(Spawned, 0, NotReturned)])
    case WaitAll => s.(pc := ReadingErr)
    case ReadFirstErr =>
      s.(pc := if s.firstErr.Some? then Returned(FnError(s.firstErr.value)) else ReadingCtx)
    case ReadCtxErr => s.(pc := Returned(if s.cancelled then ContextError else Nil))
    case WorkerTest(i) => Move(s, i, if s.cancelled then Releasing else Admitted)
    case CallFn(i) =>
      s.(workers := s.workers[i := s.workers[i].(stage := Calling, calls := s.workers[i].calls + 1)])
    case ReturnFn(i, result) =>
      var w := s.workers[i];
      s.(workers := s.workers[i :=
        if result.Some? then w.(stage := Blocked(result.value), outcome := Failed(result.value))
        else w.(stage := Releasing, outcome := Succeeded)])
    case Lock(i) =>
      Move(s, i, Holding(s.workers[i].stage.err)).(mutex := Some(i), lockLog := s.lockLog + [i])
    case CheckFirst(i) =>
      if s.firstErr.None? then
        Move(s, i, Cancelling).(firstErr := Some(s.workers[i].stage.err), writes := s.writes + 1)
      else
        Move(s, i, Unlocking)
    case Cancel(i) => Move(s, i, Unlocking).(cancelled := true)
    case Unlock(i) => Move(s, i, Releasing).(mutex := None)
    case FreeSlot(i) => Move(s, i, Finishing).(slots := s.slots - 1)
    case FinishWorker(i) => Move(s, i, Finished).(group := s.group - 1)
    case ParentDone => s.(parentDone := true)
    case Propagate => s.(cancelled := true, reached := true)
  }

  /** `t` is reached from `s` by taking `steps` one after the other. */
  ghost predicate Run(s: State, steps: seq<Step>, t: State)
    decreases |steps|
  {
    if steps == [] then s == t
    else Enabled(s, steps[0]) && Run(Apply(s, steps[0]), steps[1..], t)
  }

  // ---------------------------------------------------------------------------
  // Sums over the goroutines

  /** What is added up: slots held, wait-group counts, remaining work, calls in flight. */
  datatype Gauge = Slots | Pending | Work | InFlight

  function Weigh(g: Gauge, w: Worker): nat {
    match g
    case Slots => if w.stage.Finishing? || w.stage.Finished? then 0 else 1
    case Pending => if w.stage.Finished? then 0 else 1
    case InFlight => if w.stage.Calling? then 1 else 0
    case Work =>
      match w.stage
      case Spawned => 9
      case Admitted => 8
      case Calling => 7
      case Blocked(_) => 6
      case Holding(_) => 5
      case Cancelling => 4
      case Unlocking => 3
      case Releasing => 2
      case Finishing => 1
      case Finished => 0
  }

  function Total(g: Gauge, ws: seq<Worker>): nat {
    if ws == [] then 0 else Total(g, ws[..|ws| - 1]) + Weigh(g, ws[|ws| - 1])
  }

  lemma TotalAppend(g: Gauge, ws: seq<Worker>, w: Worker)
    ensures Total(g, ws + [w]) == Total(g, ws) + Weigh(g, w)
  {
    assert (ws + [w])[..|ws|] == ws;
  }

  lemma {:induction false} TotalUpdate(g: Gauge, ws: seq<Worker>, i: nat, w: Worker)
    requires i < |ws|
    ensures Total(g, ws[i := w]) == Total(g, ws) - Weigh(g, ws[i]) + Weigh(g, w)
  {
    var k := |ws| - 1;
    if i == k {
      assert ws[i := w][..k] == ws[..k];
    } else {
      assert ws[i := w][..k] == ws[..k][i := w];
      TotalUpdate(g, ws[..k], i, w);
    }
  }

  /** A total is at least any one of its terms, and zero only if all terms are. */
  lemma {:induction false} TotalAtLeast(g: Gauge, ws: seq<Worker>, i: nat)
    requires i < |ws|
    ensures Total(g, ws) >= Weigh(g, ws[i])
  {
    if i < |ws| - 1 {
      TotalAtLeast(g, ws[..|ws| - 1], i);
    }
  }

  /** A positive total has a positive term. */
  lemma {:induction false} TotalPositive(g: Gauge, ws: seq<Worker>) returns (i: nat)
    requires Total(g, ws) > 0
    ensures i < |ws| && Weigh(g, ws[i]) > 0
  {
    i := |ws| - 1;
    if Weigh(g, ws[i]) == 0 {
      i := TotalPositive(g, ws[..i]);
    }
  }

  /** A set of slot holders is no larger than the number of slots they hold. */
  lemma {:induction false} HoldersBounded(ws: seq<Worker>, who: set<nat>)
    requires forall i :: i in who ==> i < |ws| && Weigh(Slots, ws[i]) == 1
    ensures |who| <= Total(Slots, ws)
  {
    if ws == [] {
      assert who == {};
    } else {
      var k := |ws| - 1;
      HoldersBounded(ws[..k], who - {k});
      if k in who {
        assert |who - {k}| == |who| - 1;
      } else {
        assert who - {k} == who;
      }
    }
  }

  // ---------------------------------------------------------------------------
  // The invariant

  predicate Critical(stage: Stage) {
    stage.Holding? || stage.Cancelling? || stage.Unlocking?
  }

  ghost predicate WorkerOk(s: State, w: Worker) {
    match w.stage
    case Spawned => w.calls == 0 && w.outcome.NotReturned?
    case Admitted => w.calls == 0 && w.outcome.NotReturned?
    case Calling => w.calls == 1 && w.outcome.NotReturned?
    case Blocked(e) => w.calls == 1 && w.outcome == Failed(e)
    case Holding(e) => w.calls == 1 && w.outcome == Failed(e)
    case Cancelling => w.calls == 1 && w.outcome.Failed? && s.firstErr.Some?
    case Unlocking => w.calls == 1 && w.outcome.Failed? && s.firstErr.Some?
    case _ =>
      || (w.calls == 0 && w.outcome.NotReturned? && s.cancelled)
      || (w.calls == 1 && w.outcome.Succeeded?)
      || (w.calls == 1 && w.outcome.Failed? && s.firstErr.Some?)
  }

  ghost predicate WorkersOk(s: State) {
    forall i :: 0 <= i < |s.workers| ==> WorkerOk(s, s.workers[i])
  }

  /** Mutual exclusion. */
  ghost predicate MutexOk(s: State) {
    && (forall i :: 0 <= i < |s.workers| && Critical(s.workers[i].stage) ==> s.mutex == Some(i))
    && (s.mutex.Some? ==> s.mutex.value < |s.workers| && Critical(s.workers[s.mutex.value].stage))
  }

  /** `firstErr` is the error of the goroutine that took the mutex first. */
  ghost predicate FirstErrOk(s: State) {
    && (s.firstErr.Some? ==>
          && s.lockLog != [] && s.lockLog[0] < |s.workers|
          && s.workers[s.lockLog[0]].outcome == Failed(s.firstErr.value))
    && (s.firstErr.None? && s.lockLog != [] ==>
          |s.lockLog| == 1 && s.lockLog[0] < |s.workers| && s.workers[s.lockLog[0]].stage.Holding?)
    && (s.mutex.Some? ==> s.lockLog != [])
    && s.writes == (if s.firstErr.Some? then 1 else 0)
  }

  ghost predicate CancelOk(s: State) {
    && (s.firstErr.Some? && !s.cancelled ==>
          s.mutex.Some? && s.mutex.value < |s.workers| && s.workers[s.mutex.value].stage.Cancelling?)
    && (s.cancelled ==> s.reached || s.firstErr.Some?)
    && (s.reached ==> s.cancelled && s.parentDone)
  }

  ghost predicate CountsOk(s: State) {
    && s.slots == Total(Slots, s.workers) + (if s.pc.Adding? || s.pc.Spawning? then 1 else 0)
    && s.group == Total(Pending, s.workers) + (if s.pc.Spawning? then 1 else 0)
    && s.slots <= MAX_PARALLEL_TRANSFERS
  }

  predicate AllFinished(s: State) {
    forall i :: 0 <= i < |s.workers| ==> s.workers[i].stage.Finished?
  }

  predicate AllSucceeded(s: State) {
    && |s.workers| == s.items
    && forall i :: 0 <= i < |s.workers| ==> s.workers[i].calls == 1 && s.workers[i].outcome.Succeeded?
  }

  ghost predicate LauncherOk(s: State) {
    && |s.workers| <= s.items
    && (s.pc.Acquiring? || s.pc.Adding? || s.pc.Spawning? ==> |s.workers| < s.items)
    && (s.pc.Waiting? || s.pc.ReadingErr? || s.pc.ReadingCtx? ==> |s.workers| == s.items || s.cancelled)
    && (s.pc.ReadingErr? || s.pc.ReadingCtx? || s.pc.Returned? ==> AllFinished(s))
    && (s.pc.ReadingCtx? ==> s.firstErr.None?)
    && (s.pc.Returned? ==> ResultOk(s, s.pc.result))
  }

  /** What each result of the runner means. */
  ghost predicate ResultOk(s: State, r: Result) {
    match r
    case Nil => AllSucceeded(s)
    case FnError(e) => s.firstErr == Some(e)
    case ContextError => s.reached && s.firstErr.None?
  }

  ghost predicate Inv(s: State) {
    WorkersOk(s) && MutexOk(s) && FirstErrOk(s) && CancelOk(s) && CountsOk(s) && LauncherOk(s)
  }

  lemma InitInv(items: nat)
    ensures Inv(Init(items)) && Inv(InitCancelled(items))
  {
  }

  predicate ByEnvironment(step: Step) {
    step.ParentDone? || step.Propagate?
  }

  /** A step that moves the goroutine `step.i`. */
  predicate ByWorker(step: Step) {
    !(step.TestCtx? || step.TakeSlot? || step.AddToGroup? || step.Spawn? || step.WaitAll?
      || step.ReadFirstErr? || step.ReadCtxErr? || ByEnvironment(step))
  }

  lemma WorkerStepTotals(s: State, step: Step, g: Gauge)
    requires Enabled(s, step) && ByWorker(step)
    ensures step.i < |s.workers| == |Apply(s, step).workers|
    ensures forall j :: 0 <= j < |s.workers| && j != step.i ==> Apply(s, step).workers[j] == s.workers[j]
    ensures Total(g, Apply(s, step).workers)
            == Total(g, s.workers) - Weigh(g, s.workers[step.i]) + Weigh(g, Apply(s, step).workers[step.i])
  {
    var t := Apply(s, step);
    assert t.workers == s.workers[step.i := t.workers[step.i]];
    TotalUpdate(g, s.workers, step.i, t.workers[step.i]);
  }

  /** What a goroutine's step does to the semaphore and the wait group. */
  lemma WorkerStepCounts(s: State, step: Step)
    requires Enabled(s, step) && ByWorker(step)
    ensures step.i < |s.workers| == |Apply(s, step).workers| && Apply(s, step).pc == s.pc
    ensures var w, w' := s.workers[step.i], Apply(s, step).workers[step.i];
            && Apply(s, step).slots == s.slots - Weigh(Slots, w) + Weigh(Slots, w')
            && Apply(s, step).group == s.group - Weigh(Pending, w) + Weigh(Pending, w')
            && Weigh(Slots, w') <= Weigh(Slots, w)
  {
  }

  lemma CountsKept(s: State, step: Step)
    requires CountsOk(s) && LauncherOk(s) && Enabled(s, step)
    ensures CountsOk(Apply(s, step))
  {
    if ByWorker(step) {
      WorkerCountsKept(s, step);
    } else if step.Spawn? {
      TotalAppend(Slots, s.workers, Worker(Spawned, 0, NotReturned));
      TotalAppend(Pending, s.workers, Worker(Spawned, 0, NotReturned));
    } else {
      assert Apply(s, step).workers == s.workers;
    }
  }

  lemma WorkerCountsKept(s: State, step: Step)
    requires CountsOk(s) && Enabled(s, step) && ByWorker(step)
    ensures CountsOk(Apply(s, step))
  {
    WorkerStepTotals(s, step, Slots);
    WorkerStepTotals(s, step, Pending);
    WorkerStepCounts(s, step);
  }

  lemma WorkersKept(s: State, step: Step)
    requires Inv(s) && Enabled(s, step)
    ensures WorkersOk(Apply(s, step))
  {
    var t := Apply(s, step);
    FlagsKept(s, step);
    forall i | 0 <= i < |t.workers| ensures WorkerOk(t, t.workers[i]) {
      if i < |s.workers| {
        assert WorkerOk(s, s.workers[i]);
        if ByWorker(step) && step.i == i {
          WorkerMoves(s, step);
        } else {
          WorkerStays(s, step, i);
        }
      }
    }
  }

  lemma FlagsKept(s: State, step: Step)
    requires Enabled(s, step)
    ensures s.firstErr.Some? ==> Apply(s, step).firstErr.Some?
    ensures s.cancelled ==> Apply(s, step).cancelled
  {
  }

  lemma WorkerStays(s: State, step: Step, i: nat)
    requires Enabled(s, step) && i < |s.workers| && !(ByWorker(step) && step.i == i)
    ensures i < |Apply(s, step).workers| && Apply(s, step).workers[i] == s.workers[i]
  {
  }

  lemma WorkerMoves(s: State, step: Step)
    requires Enabled(s, step) && ByWorker(step) && step.i < |s.workers| && WorkerOk(s, s.workers[step.i])
    ensures step.i < |Apply(s, step).workers| && WorkerOk(Apply(s, step), Apply(s, step).workers[step.i])
  {
  }

  lemma MutexKept(s: State, step: Step)
    requires Inv(s) && Enabled(s, step)
    ensures MutexOk(Apply(s, step))
  {
    if ByWorker(step) {
      OthersSame(s, step);
      MutexMoves(s, step);
    }
  }

  lemma OthersSame(s: State, step: Step)
    requires Enabled(s, step) && ByWorker(step)
    ensures step.i < |s.workers| == |Apply(s, step).workers|
    ensures forall j :: 0 <= j < |s.workers| && j != step.i ==> Apply(s, step).workers[j] == s.workers[j]
  {
  }

  /** Locking enters the critical section and unlocking leaves it; no other step does either. */
  lemma MutexMoves(s: State, step: Step)
    requires Inv(s) && Enabled(s, step) && ByWorker(step)
    ensures step.i < |s.workers| == |Apply(s, step).workers|
    ensures var before, after := Critical(s.workers[step.i].stage), Critical(Apply(s, step).workers[step.i].stage);
            Apply(s, step).mutex == if after && !before then Some(step.i) else if before && !after then None else s.mutex
    ensures !Critical(s.workers[step.i].stage) && Critical(Apply(s, step).workers[step.i].stage) ==> s.mutex.None?
  {
  }

  /** Checking `firstErr` is the only step that assigns it, and only the mutex's first holder does. */
  lemma FirstErrKept(s: State, step: Step)
    requires Inv(s) && Enabled(s, step)
    ensures FirstErrOk(Apply(s, step))
  {
    if step.CheckFirst? {
      FirstErrChecked(s, step.i);
    } else if ByWorker(step) {
      FirstErrUnchecked(s, step);
    }
  }

  lemma FirstErrChecked(s: State, i: nat)
    requires WorkersOk(s) && MutexOk(s) && FirstErrOk(s) && Enabled(s, CheckFirst(i))
    ensures FirstErrOk(Apply(s, CheckFirst(i)))
  {
    assert WorkerOk(s, s.workers[i]);
  }

  lemma FirstErrUnchecked(s: State, step: Step)
    requires WorkersOk(s) && MutexOk(s) && FirstErrOk(s) && Enabled(s, step) && ByWorker(step) && !step.CheckFirst?
    ensures FirstErrOk(Apply(s, step))
  {
    OthersSame(s, step);
    assert WorkerOk(s, s.workers[step.i]);
  }

  lemma CancelKept(s: State, step: Step)
    requires Inv(s) && Enabled(s, step)
    ensures CancelOk(Apply(s, step))
  {
    if ByWorker(step) {
      WorkerCancelKept(s, step);
    }
  }

  lemma WorkerCancelKept(s: State, step: Step)
    requires MutexOk(s) && WorkersOk(s) && CancelOk(s) && Enabled(s, step) && ByWorker(step)
    ensures CancelOk(Apply(s, step))
  {
    OthersSame(s, step);
  }

  lemma LauncherKept(s: State, step: Step)
    requires Inv(s) && Enabled(s, step)
    ensures LauncherOk(Apply(s, step))
  {
    if step.WaitAll? {
      forall i | 0 <= i < |s.workers| ensures s.workers[i].stage.Finished? {
        TotalAtLeast(Pending, s.workers, i);
      }
    } else if ByWorker(step) {
      LauncherWaits(s, step);
    }
  }

  /** A goroutine that moves is not finished, so the launcher is not past the wait group. */
  lemma LauncherWaits(s: State, step: Step)
    requires CancelOk(s) && LauncherOk(s) && Enabled(s, step) && ByWorker(step)
    ensures LauncherOk(Apply(s, step))
  {
    OthersSame(s, step);
    assert !s.workers[step.i].stage.Finished?;
  }

  /** Every step of every party keeps the invariant. */
  lemma StepKeepsInv(s: State, step: Step)
    requires Inv(s) && Enabled(s, step)
    ensures Inv(Apply(s, step)) && Apply(s, step).items == s.items
  {
    CountsKept(s, step);
    WorkersKept(s, step);
    MutexKept(s, step);
    FirstErrKept(s, step);
    CancelKept(s, step);
    LauncherKept(s, step);
  }

  lemma {:induction false} RunKeepsInv(s: State, steps: seq<Step>, t: State)
    requires Inv(s) && Run(s, steps, t)
    ensures Inv(t) && t.items == s.items
    decreases |steps|
  {
    if steps != [] {
      StepKeepsInv(s, steps[0]);
      RunKeepsInv(Apply(s, steps[0]), steps[1..], t);
    }
  }

  // ---------------------------------------------------------------------------
  // Safety over every run

  /** A state some interleaving reaches, from a live or an already cancelled parent. */
  ghost predicate Reachable(items: nat, t: State) {
    exists steps :: Run(Init(items), steps, t)
  }

  lemma ReachableInv(items: nat, t: State)
    requires Reachable(items, t)
    ensures Inv(t) && t.items == items
  {
    InitInv(items);
    var steps :| Run(Init(items), steps, t);
    RunKeepsInv(Init(items), steps, t);
  }

  /** What the runner promises about its result, for every interleaving.  `Nil`: exactly one
      call per item, all successful.  An error: the one `fn` gave the goroutine that took the
      mutex first, and it is returned whenever any call failed.  The context's error: the parent
      was done and no call failed. */
  lemma ResultTheorem(items: nat, t: State)
    requires Reachable(items, t) && t.pc.Returned?
    ensures AllFinished(t) && |t.workers| <= items
    ensures forall i :: 0 <= i < |t.workers| ==> t.workers[i].calls <= 1
    ensures t.pc.result.Nil? ==> |t.workers| == items && AllSucceeded(t)
    ensures t.pc.result.FnError? <==> exists i :: 0 <= i < |t.workers| && t.workers[i].outcome.Failed?
    ensures t.pc.result.FnError? ==>
              && t.lockLog != [] && t.lockLog[0] < |t.workers|
              && t.workers[t.lockLog[0]].outcome == Failed(t.pc.result.error)
    ensures t.pc.result.ContextError? ==>
              t.reached && t.parentDone && forall i :: 0 <= i < |t.workers| ==> !t.workers[i].outcome.Failed?
    ensures !t.reached && !t.pc.result.FnError? ==> t.pc.result.Nil?
  {
    ReachableInv(items, t);
    if i :| 0 <= i < |t.workers| && t.workers[i].outcome.Failed? {
      assert WorkerOk(t, t.workers[i]);
    }
  }

  /** `firstErr` is assigned at most once, and whoever reads it runs after every goroutine has
      called `wg.Done`: no write can be concurrent with the read. */
  lemma FirstErrRaceFree(items: nat, t: State)
    requires Reachable(items, t)
    ensures t.writes <= 1
    ensures t.pc.ReadingErr? || t.pc.ReadingCtx? || t.pc.Returned? ==>
              AllFinished(t) && forall step :: Enabled(t, step) ==> !ByWorker(step)
    ensures forall i, j | 0 <= i < |t.workers| && 0 <= j < |t.workers| ::
              Critical(t.workers[i].stage) && Critical(t.workers[j].stage) ==> i == j
  {
    ReachableInv(items, t);
  }

  /** The goroutines with a call of `fn` in flight. */
  function Calls(s: State): set<nat> {
    set i: nat | 0 <= i < |s.workers| && s.workers[i].stage.Calling?
  }

  /** The goroutines other than `w` that are past their test of the context and have not finished
      their call. */
  function Committed(s: State, w: nat): set<nat> {
    set i: nat | 0 <= i < |s.workers| && i != w && (s.workers[i].stage.Admitted? || s.workers[i].stage.Calling?)
  }

  /** At most eight calls are in flight in any state of any run. */
  lemma BoundedFanOut(items: nat, t: State)
    requires Reachable(items, t)
    ensures |Calls(t)| <= 8
  {
    ReachableInv(items, t);
    HoldersBounded(t.workers, Calls(t));
  }

  // ---------------------------------------------------------------------------
  // Fail fast

  /** What no step undoes. */
  ghost predicate Later(s: State, t: State) {
    && t.items == s.items
    && |s.workers| <= |t.workers|
    && (s.cancelled ==> t.cancelled)
    && (s.parentDone ==> t.parentDone)
    && (s.reached ==> t.reached)
    && (s.firstErr.Some? ==> t.firstErr == s.firstErr)
    && s.writes <= t.writes
    && s.lockLog <= t.lockLog
    && (s.pc.Returned? ==> t.pc == s.pc && t.workers == s.workers)
  }

  lemma StepIsMonotone(s: State, step: Step)
    requires Inv(s) && Enabled(s, step)
    ensures Later(s, Apply(s, step))
  {
  }

  lemma {:induction false} RunIsMonotone(s: State, steps: seq<Step>, t: State)
    requires Inv(s) && Run(s, steps, t)
    ensures Later(s, t)
    decreases |steps|
  {
    if steps != [] {
      StepKeepsInv(s, steps[0]);
      StepIsMonotone(s, steps[0]);
      RunIsMonotone(Apply(s, steps[0]), steps[1..], t);
      LaterTransitive(s, Apply(s, steps[0]), t);
    }
  }

  lemma LaterTransitive(s: State, t: State, u: State)
    requires Later(s, t) && Later(t, u)
    ensures Later(s, u)
  {
  }

  /** How many more goroutines the launcher may still start once the context is cancelled. */
  function StillToLaunch(pc: Launcher): nat {
    if pc.Acquiring? || pc.Adding? || pc.Spawning? then 1 else 0
  }

  /** From a cancelled state on: the launcher starts at most one more goroutine (none, if it has
      not passed its test), and a goroutine that still had to test the context never calls `fn`. */
  lemma {:induction false} CancelledStopsWork(s: State, steps: seq<Step>, t: State)
    requires Inv(s) && s.cancelled && Run(s, steps, t)
    ensures |t.workers| + StillToLaunch(t.pc) <= |s.workers| + StillToLaunch(s.pc)
    ensures forall i :: 0 <= i < |t.workers| && (i < |s.workers| ==> s.workers[i].stage.Spawned?) ==>
              t.workers[i].calls == 0
    decreases |steps|
  {
    CancelledWorkers(s, steps, t);
    forall i | 0 <= i < |t.workers| && (i < |s.workers| ==> s.workers[i].stage.Spawned?)
      ensures t.workers[i].calls == 0
    {
      if i < |s.workers| {
        assert WorkerOk(s, s.workers[i]);
      }
    }
    if steps != [] {
      StepKeepsInv(s, steps[0]);
      CancelledLauncher(s, steps[0]);
      CancelledStopsWork(Apply(s, steps[0]), steps[1..], t);
    }
  }

  lemma CancelledLauncher(s: State, step: Step)
    requires Inv(s) && s.cancelled && Enabled(s, step)
    ensures Apply(s, step).cancelled
    ensures |Apply(s, step).workers| + StillToLaunch(Apply(s, step).pc) <= |s.workers| + StillToLaunch(s.pc)
  {
  }

  /** A goroutine that will not call `fn` any more when the context is cancelled. */
  predicate Quiet(w: Worker) {
    !w.stage.Admitted? && !w.stage.Calling?
  }

  /** From `s` to `t`, the quiet goroutines stay quiet with their history, and new ones never call. */
  ghost predicate StaysQuiet(s: State, t: State) {
    && |s.workers| <= |t.workers|
    && (forall i :: |s.workers| <= i < |t.workers| ==> Quiet(t.workers[i]) && t.workers[i].calls == 0)
    && (forall i :: 0 <= i < |s.workers| && Quiet(s.workers[i]) ==>
          && Quiet(t.workers[i])
          && t.workers[i].calls == s.workers[i].calls && t.workers[i].outcome == s.workers[i].outcome)
  }

  lemma CancelledStep(s: State, step: Step)
    requires Inv(s) && s.cancelled && Enabled(s, step)
    ensures StaysQuiet(s, Apply(s, step))
  {
    if ByWorker(step) {
      OthersSame(s, step);
      QuietMoves(s, step);
    }
  }

  lemma QuietMoves(s: State, step: Step)
    requires s.cancelled && Enabled(s, step) && ByWorker(step)
    ensures step.i < |s.workers| == |Apply(s, step).workers|
    ensures var w, w' := s.workers[step.i], Apply(s, step).workers[step.i];
            Quiet(w) ==> Quiet(w') && w'.calls == w.calls && w'.outcome == w.outcome
  {
  }

  lemma {:induction false} CancelledWorkers(s: State, steps: seq<Step>, t: State)
    requires Inv(s) && s.cancelled && Run(s, steps, t)
    ensures StaysQuiet(s, t)
    decreases |steps|
  {
    if steps != [] {
      StepKeepsInv(s, steps[0]);
      CancelledStep(s, steps[0]);
      CancelledLauncher(s, steps[0]);
      CancelledWorkers(Apply(s, steps[0]), steps[1..], t);
      QuietTransitive(s, Apply(s, steps[0]), t);
    }
  }

  lemma QuietTransitive(s: State, t: State, u: State)
    requires StaysQuiet(s, t) && StaysQuiet(t, u)
    ensures StaysQuiet(s, u)
  {
  }

  /** When goroutine `w` is about to cancel the context, at most seven other calls can still start
      or finish afterwards: in every continuation, the others whose history changes are among the
      `Committed` ones, and there are at most seven of those. */
  lemma CancelLeavesSeven(items: nat, s: State, w: nat, steps: seq<Step>, t: State)
    requires Reachable(items, s) && Enabled(s, Cancel(w)) && Run(Apply(s, Cancel(w)), steps, t)
    ensures |Committed(s, w)| <= 7
    ensures |s.workers| <= |t.workers|
    ensures forall i: nat :: i < |t.workers| && i !in Committed(s, w) ==>
              if i < |s.workers| then
                t.workers[i].calls == s.workers[i].calls && t.workers[i].outcome == s.workers[i].outcome
              else
                t.workers[i].calls == 0
  {
    ReachableInv(items, s);
    CommittedBounded(s, w);
    StepKeepsInv(s, Cancel(w));
    CancelledWorkers(Apply(s, Cancel(w)), steps, t);
    assert forall i: nat :: i < |s.workers| && i !in Committed(s, w) ==> Quiet(Apply(s, Cancel(w)).workers[i]);
  }

  lemma CommittedBounded(s: State, w: nat)
    requires Inv(s) && Enabled(s, Cancel(w))
    ensures |Committed(s, w)| <= MAX_PARALLEL_TRANSFERS - 1
  {
    var c := Committed(s, w);
    HoldersBounded(s.workers, c + {w});
    assert |c + {w}| == |c| + 1;
  }

  /** A parent whose cancellation reaches the runner before it returns is never answered with `Nil`. */
  lemma {:induction false} DoneParentIsReported(s: State, steps: seq<Step>, t: State)
    requires Inv(s) && s.reached && !s.pc.Returned? && Run(s, steps, t) && t.pc.Returned?
    ensures !t.pc.result.Nil?
    decreases |steps|
  {
    var u := Apply(s, steps[0]);
    StepKeepsInv(s, steps[0]);
    if u.pc.Returned? {
      RunIsMonotone(u, steps[1..], t);
    } else {
      DoneParentIsReported(u, steps[1..], t);
    }
  }

  /** At the final test a parent that is done is reported exactly when its cancellation has reached
      the derived context. */
  lemma DoneParentReportedIff(items: nat, s: State)
    requires Reachable(items, s) && s.pc.ReadingCtx?
    ensures Apply(s, ReadCtxErr).pc == Returned(if s.reached then ContextError else Nil)
  {
    ReachableInv(items, s);
  }

  /** It may not have: a parent that is done before the final test can still be answered with `Nil`. */
  lemma DoneParentUnnoticed()
    ensures exists s :: Reachable(1, s) && s.pc.ReadingCtx? && s.parentDone
              && Apply(s, ReadCtxErr).pc == Returned(Nil)
  {
    ReachTesting();
    ReachReturn();
    var s := OneItem(ReadingCtx, [Worker(Finished, 1, Succeeded)], 0, 0);
    ReachStep(1, s, ParentDone, Apply(s, ParentDone));
    assert Reachable(1, Apply(s, ParentDone));
  }

  /** With a parent that is done from the start, the runner answers `Nil` exactly when there is no
      item: the early return comes before the context is looked at. */
  lemma CancelledParentIgnoredIffEmpty(items: nat, steps: seq<Step>, t: State)
    requires Run(InitCancelled(items), steps, t) && t.pc.Returned?
    ensures t.pc.result.Nil? <==> items == 0
  {
    InitInv(items);
    if items == 0 {
      RunIsMonotone(InitCancelled(items), steps, t);
    } else {
      DoneParentIsReported(InitCancelled(items), steps, t);
    }
  }

  /** The converse of `Nil ==> AllSucceeded` fails: when the parent is done after the last call
      and before the final test, the context's error is returned although every call succeeded. */
  lemma AllSucceededYetContextError(e: Error)
    ensures exists t :: Reachable(1, t) && AllSucceeded(t) && t.pc == Returned(ContextError)
  {
    ReachTesting();
    ReachReturn();
    var s := OneItem(ReadingCtx, [Worker(Finished, 1, Succeeded)], 0, 0);
    var u := Apply(s, ParentDone);
    ReachStep(1, s, ParentDone, u);
    ReachStep(1, u, Propagate, Apply(u, Propagate));
    var t := Apply(Apply(u, Propagate), ReadCtxErr);
    ReachStep(1, Apply(u, Propagate), ReadCtxErr, t);
    assert Reachable(1, t) && AllSucceeded(t);
  }

  function OneItem(pc: Launcher, workers: seq<Worker>, slots: nat, group: nat): State {
    State(1, pc, workers, slots, group, None, false, false, false, None, [], 0)
  }

  lemma ReachStep(items: nat, s: State, step: Step, t: State)
    requires Reachable(items, s) && Enabled(s, step) && t == Apply(s, step)
    ensures Reachable(items, t)
  {
    var steps :| Run(Init(items), steps, s);
    RunSnoc(Init(items), steps, s, step);
  }

  lemma ReachTesting()
    ensures Reachable(1, OneItem(Testing, [Worker(Calling, 1, NotReturned)], 1, 1))
  {
    var w := Worker(Spawned, 0, NotReturned);
    assert Run(Init(1), [], Init(1));
    ReachStep(1, Init(1), TestCtx, OneItem(Acquiring, [], 0, 0));
    ReachStep(1, OneItem(Acquiring, [], 0, 0), TakeSlot, OneItem(Adding, [], 1, 0));
    ReachStep(1, OneItem(Adding, [], 1, 0), AddToGroup, OneItem(Spawning, [], 1, 1));
    ReachStep(1, OneItem(Spawning, [], 1, 1), Spawn, OneItem(Testing, [w], 1, 1));
    ReachStep(1, OneItem(Testing, [w], 1, 1), WorkerTest(0), OneItem(Testing, [w.(stage := Admitted)], 1, 1));
    ReachStep(1, OneItem(Testing, [w.(stage := Admitted)], 1, 1), CallFn(0),
              OneItem(Testing, [Worker(Calling, 1, NotReturned)], 1, 1));
  }

  lemma ReachReturn()
    requires Reachable(1, OneItem(Testing, [Worker(Calling, 1, NotReturned)], 1, 1))
    ensures Reachable(1, OneItem(ReadingCtx, [Worker(Finished, 1, Succeeded)], 0, 0))
  {
    var w := Worker(Finished, 1, Succeeded);
    ReachStep(1, OneItem(Testing, [Worker(Calling, 1, NotReturned)], 1, 1), ReturnFn(0, None),
              OneItem(Testing, [w.(stage := Releasing)], 1, 1));
    ReachStep(1, OneItem(Testing, [w.(stage := Releasing)], 1, 1), FreeSlot(0),
              OneItem(Testing, [w.(stage := Finishing)], 0, 1));
    ReachStep(1, OneItem(Testing, [w.(stage := Finishing)], 0, 1), FinishWorker(0), OneItem(Testing, [w], 0, 0));
    ReachStep(1, OneItem(Testing, [w], 0, 0), TestCtx, OneItem(Waiting, [w], 0, 0));
    ReachStep(1, OneItem(Waiting, [w], 0, 0), WaitAll, OneItem(ReadingErr, [w], 0, 0));
    ReachStep(1, OneItem(ReadingErr, [w], 0, 0), ReadFirstErr, OneItem(ReadingCtx, [w], 0, 0));
  }

  lemma {:induction false} RunSnoc(s: State, steps: seq<Step>, t: State, step: Step)
    requires Run(s, steps, t) && Enabled(t, step)
    ensures Run(s, steps + [step], Apply(t, step))
    decreases |steps|
  {
    var all := steps + [step];
    if steps != [] {
      RunSnoc(Apply(s, steps[0]), steps[1..], t, step);
      assert all[1..] == steps[1..] + [step];
    } else {
      assert all[1..] == [];
    }
  }

  // ---------------------------------------------------------------------------
  // Progress

  /** A step of the launcher or of a goroutine that is enabled now.  A launcher blocked on the
      semaphore waits for eight slot holders, one of which can move: any of them, or the holder of the
      mutex it waits for. */
  lemma NoDeadlock(items: nat, s: State) returns (step: Step)
    requires Reachable(items, s) && !s.pc.Returned?
    ensures Enabled(s, step) && !ByEnvironment(step)
    ensures s.pc.Acquiring? && !Enabled(s, TakeSlot) ==>
              && Total(Slots, s.workers) == 8
              && ByWorker(step) && step.i < |s.workers| && Weigh(Slots, s.workers[step.i]) == 1
  {
    ReachableInv(items, s);
    step := SomeStep(s);
  }

  lemma SomeStep(s: State) returns (step: Step)
    requires Inv(s) && !s.pc.Returned?
    ensures Enabled(s, step) && !ByEnvironment(step)
    ensures s.pc.Acquiring? && s.slots == MAX_PARALLEL_TRANSFERS ==>
              && Total(Slots, s.workers) == MAX_PARALLEL_TRANSFERS
              && ByWorker(step) && step.i < |s.workers| && Weigh(Slots, s.workers[step.i]) == 1
  {
    match s.pc {
      case Testing => step := TestCtx;
      case Acquiring =>
        if s.slots < MAX_PARALLEL_TRANSFERS {
          step := TakeSlot;
        } else {
          var i := TotalPositive(Slots, s.workers);
          step := WorkerStep(s, i);
        }
      case Adding => step := AddToGroup;
      case Spawning => step := Spawn;
      case Waiting =>
        if s.group == 0 {
          step := WaitAll;
        } else {
          var i := TotalPositive(Pending, s.workers);
          step := WorkerStep(s, i);
        }
      case ReadingErr => step := ReadFirstErr;
      case ReadingCtx => step := ReadCtxErr;
    }
  }

  lemma WorkerStep(s: State, i: nat) returns (step: Step)
    requires Inv(s) && i < |s.workers| && !s.workers[i].stage.Finished?
    ensures Enabled(s, step) && ByWorker(step) && step.i < |s.workers|
    ensures Weigh(Slots, s.workers[i]) == 1 ==> Weigh(Slots, s.workers[step.i]) == 1
  {
    TotalAtLeast(Slots, s.workers, i);
    TotalAtLeast(Pending, s.workers, i);
    match s.workers[i].stage {
      case Spawned => step := WorkerTest(i);
      case Admitted => step := CallFn(i);
      case Calling => step := ReturnFn(i, None);
      case Blocked(_) =>
        if s.mutex.None? {
          step := Lock(i);
        } else {
          step := HolderStep(s, s.mutex.value);
        }
      case Releasing => step := FreeSlot(i);
      case Finishing => step := FinishWorker(i);
      case _ => step := HolderStep(s, i);
    }
  }

  lemma HolderStep(s: State, i: nat) returns (step: Step)
    requires Inv(s) && i < |s.workers| && Critical(s.workers[i].stage)
    ensures Enabled(s, step) && ByWorker(step) && step.i == i
  {
    step := match s.workers[i].stage
      case Holding(_) => CheckFirst(i)
      case Cancelling => Cancel(i)
      case _ => Unlock(i);
  }

  /** How many steps the launcher and the goroutines can still take. */
  function Budget(s: State): nat {
    var left: nat := if |s.workers| <= s.items then s.items - |s.workers| else 0;
    13 * left + Total(Work, s.workers) +
    match s.pc
    case Testing => 4
    case Acquiring => 3
    case Adding => 2
    case Spawning => 1
    case Waiting => 3
    case ReadingErr => 2
    case ReadingCtx => 1
    case Returned(_) => 0
  }

  /** Each step of the launcher or a goroutine uses up some of the budget; the environment's steps
      do not add to it. */
  lemma StepUsesBudget(s: State, step: Step)
    requires Inv(s) && Enabled(s, step)
    ensures if ByEnvironment(step) then Budget(Apply(s, step)) == Budget(s)
            else Budget(Apply(s, step)) < Budget(s)
  {
    if ByWorker(step) {
      WorkerUsesBudget(s, step);
    } else if step.Spawn? {
      TotalAppend(Work, s.workers, Worker(Spawned, 0, NotReturned));
    } else if !ByEnvironment(step) {
      LauncherUsesBudget(s, step);
    }
  }

  lemma WorkerUsesBudget(s: State, step: Step)
    requires Enabled(s, step) && ByWorker(step)
    ensures Budget(Apply(s, step)) < Budget(s)
  {
    WorkerStepTotals(s, step, Work);
    WorkerAdvances(s, step);
  }

  lemma LauncherUsesBudget(s: State, step: Step)
    requires Enabled(s, step) && !ByWorker(step) && !ByEnvironment(step) && !step.Spawn?
    ensures Budget(Apply(s, step)) < Budget(s)
  {
    assert Apply(s, step).workers == s.workers && Apply(s, step).items == s.items;
  }

  lemma WorkerAdvances(s: State, step: Step)
    requires Enabled(s, step) && ByWorker(step)
    ensures |Apply(s, step).workers| == |s.workers| > step.i
    ensures Apply(s, step).pc == s.pc && Apply(s, step).items == s.items
    ensures Weigh(Work, Apply(s, step).workers[step.i]) < Weigh(Work, s.workers[step.i])
  {
  }

  function ProgramSteps(steps: seq<Step>): nat {
    if steps == [] then 0 else (if ByEnvironment(steps[0]) then 0 else 1) + ProgramSteps(steps[1..])
  }

  /** Every run is short: at most 13 steps an item and 4 more, whatever the interleaving and the
      results of `fn`.  With `NoDeadlock`, every run that is continued while it can be returns. */
  lemma Terminates(items: nat, steps: seq<Step>, t: State)
    requires Run(Init(items), steps, t)
    ensures ProgramSteps(steps) <= 13 * items + 4
  {
    InitInv(items);
    RunUsesBudget(Init(items), steps, t);
  }

  lemma {:induction false} RunUsesBudget(s: State, steps: seq<Step>, t: State)
    requires Inv(s) && Run(s, steps, t)
    ensures ProgramSteps(steps) + Budget(t) <= Budget(s)
    decreases |steps|
  {
    if steps != [] {
      StepKeepsInv(s, steps[0]);
      StepUsesBudget(s, steps[0]);
      RunUsesBudget(Apply(s, steps[0]), steps[1..], t);
    }
  }
}
