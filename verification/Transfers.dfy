/** File transfers run by the bounded parallel runner: the runner's machine, with each call of
    `fn` performed as a request. */
module Transfers {
  import opened Wrappers
  import opened Bytes
  import opened World
  import P = Parallel

  /** What `fn` does for one item. */
  datatype Job =
    | UploadJob(url: string, name: string, content: Bytes)
    | DownloadJob(url: string, dest: string, path: string)

  /** The requests made: `sent[k]` is the item whose request was the `k`-th, and `events[k]` that
      request.  `canceled` says whether a cancellation of the parent context reached the
      runner before it returned. */
  datatype Transfer = Transfer(sent: seq<nat>, events: seq<Event>, canceled: bool)

  ghost predicate EventFor(job: Job, e: Event, ok: bool) {
    match job
    case UploadJob(url, _, content) => e.FilePut? && e == FilePut(url, content, ok, e.applied)
    case DownloadJob(url, dest, _) => e.FileGot? && e == FileGot(url, dest, ok, e.written)
  }

  predicate Succeeded(e: Event) {
    (e.FilePut? || e.FileGot?) && e.ok
  }

  predicate Distinct(s: seq<nat>) {
    forall i, j :: 0 <= i < j < |s| ==> s[i] != s[j]
  }

  /** Each item's request is made at most once, for that item. */
  ghost predicate RequestsOf(jobs: seq<Job>, run: Transfer) {
    && |run.sent| == |run.events| && Distinct(run.sent)
    && forall k :: 0 <= k < |run.sent| ==>
         run.sent[k] < |jobs| && EventFor(jobs[run.sent[k]], run.events[k], Succeeded(run.events[k]))
  }

  ghost predicate AllMade(jobs: seq<Job>, run: Transfer) {
    && (forall i :: 0 <= i < |jobs| ==> i in run.sent)
    && (forall k :: 0 <= k < |run.events| ==> Succeeded(run.events[k]))
  }

  ghost predicate SomeFailed(run: Transfer) {
    exists k :: 0 <= k < |run.events| && !Succeeded(run.events[k])
  }

  ghost predicate Complete(jobs: seq<Job>, run: Transfer) {
    AllMade(jobs, run) && !run.canceled
  }

  /** The requests determine the result: an error exactly when one failed, nil exactly when all were
      made and succeeded under a live context, the context's error otherwise. */
  ghost predicate TransferOk(jobs: seq<Job>, run: Transfer, r: P.Result) {
    && RequestsOf(jobs, run)
    && (r.Nil? <==> Complete(jobs, run))
    && (r.FnError? <==> SomeFailed(run))
    && (r.ContextError? <==> run.canceled && !SomeFailed(run))
  }

  method Perform(w: Remote, job: Job) returns (ok: bool, ghost e: Event)
    modifies w
    ensures w.state == After(old(w.state), e) && EventFor(job, e, ok)
    ensures w.attempts == old(w.attempts) + 1
  {
    match job {
      case UploadJob(url, _, content) => ok, e := w.PutFile(url, content);
      case DownloadJob(url, dest, _) => ok, e := w.DownloadFile(url, dest);
    }
  }

  /** The requests made so far are those of the goroutines whose call has returned. */
  ghost predicate Tracks(jobs: seq<Job>, s: P.State, run: Transfer) {
    && RequestsOf(jobs, run) && run.canceled == s.reached
    && (forall k :: 0 <= k < |run.sent| ==>
          && run.sent[k] < |s.workers|
          && !s.workers[run.sent[k]].outcome.NotReturned?
          && (s.workers[run.sent[k]].outcome.Succeeded? <==> Succeeded(run.events[k])))
    && (forall i :: 0 <= i < |s.workers| && !s.workers[i].outcome.NotReturned? ==> i in run.sent)
  }

  /** A step other than the return of a call changes no call's outcome. */
  lemma OutcomesKept(s: P.State, step: P.Step)
    requires P.Enabled(s, step) && !step.ReturnFn?
    ensures |s.workers| <= |P.Apply(s, step).workers|
    ensures forall i :: 0 <= i < |s.workers| ==> P.Apply(s, step).workers[i].outcome == s.workers[i].outcome
    ensures forall i :: |s.workers| <= i < |P.Apply(s, step).workers| ==>
              P.Apply(s, step).workers[i].outcome.NotReturned?
  {
  }

  lemma TracksStep(jobs: seq<Job>, s: P.State, run: Transfer, step: P.Step)
    requires Tracks(jobs, s, run) && P.Enabled(s, step) && !step.ReturnFn?
    ensures Tracks(jobs, P.Apply(s, step), run.(canceled := P.Apply(s, step).reached))
  {
    OutcomesKept(s, step);
    TracksSame(jobs, s, P.Apply(s, step), run);
  }

  lemma TracksSame(jobs: seq<Job>, s: P.State, t: P.State, run: Transfer)
    requires Tracks(jobs, s, run) && |s.workers| <= |t.workers|
    requires forall i :: 0 <= i < |s.workers| ==> t.workers[i].outcome == s.workers[i].outcome
    requires forall i :: |s.workers| <= i < |t.workers| ==> t.workers[i].outcome.NotReturned?
    ensures Tracks(jobs, t, run.(canceled := t.reached))
  {
  }

  lemma TracksReturn(jobs: seq<Job>, s: P.State, run: Transfer, i: nat, result: Option<P.Error>, e: Event)
    requires P.Inv(s) && s.items == |jobs| && Tracks(jobs, s, run) && P.Enabled(s, P.ReturnFn(i, result))
    requires EventFor(jobs[i], e, result.None?)
    ensures Tracks(jobs, P.Apply(s, P.ReturnFn(i, result)), Transfer(run.sent + [i], run.events + [e], run.canceled))
  {
    assert P.WorkerOk(s, s.workers[i]);
    assert i !in run.sent;
    var t, run' := P.Apply(s, P.ReturnFn(i, result)), Transfer(run.sent + [i], run.events + [e], run.canceled);
    forall k | 0 <= k < |t.workers| && !t.workers[k].outcome.NotReturned? ensures k in run'.sent {
      if k == i {
        assert run'.sent[|run.sent|] == i;
      } else {
        assert k in run.sent;
      }
    }
  }

  ghost predicate Running(jobs: seq<Job>, s: P.State, run: Transfer) {
    P.Reachable(|jobs|, s) && P.Inv(s) && s.items == |jobs| && Tracks(jobs, s, run)
  }

  /** The steps the environment has ahead of it. */
  function Ahead(s: P.State): nat {
    (if s.parentDone then 0 else 1) + (if s.reached then 0 else 1)
  }

  predicate Useful(s: P.State, step: P.Step) {
    (step.ParentDone? ==> !s.parentDone) && (step.Propagate? ==> !s.reached)
  }

  lemma AnyResult(jobs: seq<Job>, s: P.State, run: Transfer, step: P.Step)
    requires Running(jobs, s, run) && step.ReturnFn? && P.Enabled(s, step)
    ensures step.i < |jobs| && forall result :: P.Enabled(s, P.ReturnFn(step.i, result))
  {
  }

  /** The call that is about to return is performed as its request. */
  method Return(w: Remote, jobs: seq<Job>, s: P.State, ghost run: Transfer, chosen: P.Step)
    returns (step: P.Step, ghost run': Transfer)
    requires Running(jobs, s, run) && chosen.ReturnFn? && P.Enabled(s, chosen)
    modifies w
    ensures P.Enabled(s, step) && step.ReturnFn? && step.i == chosen.i
    ensures Tracks(jobs, P.Apply(s, step), run')
    ensures run.events <= run'.events
    ensures w.state == AfterAll(old(w.state), run'.events[|run.events|..])
    ensures w.attempts == old(w.attempts) + |run'.events| - |run.events|
  {
    var i := chosen.i;
    AnyResult(jobs, s, run, chosen);
    var ok, e := Perform(w, jobs[i]);
    step := P.ReturnFn(i, if ok then None else Some("transfer failed"));
    TracksReturn(jobs, s, run, i, step.result, e);
    run' := Transfer(run.sent + [i], run.events + [e], run.canceled);
    assert run'.events[|run.events|..] == [e];
  }

  /** One step of the scheduler's choice; the return of a call performs the request. */
  method Advance(w: Remote, jobs: seq<Job>, s: P.State, ghost run: Transfer) returns (t: P.State, ghost run': Transfer)
    requires Running(jobs, s, run) && !s.pc.Returned?
    modifies w
    ensures Running(jobs, t, run') && NilMeansLive(t)
    ensures run.events <= run'.events
    ensures w.state == AfterAll(old(w.state), run'.events[|run.events|..])
    ensures w.attempts == old(w.attempts) + |run'.events| - |run.events|
    ensures P.Budget(t) < P.Budget(s) || (P.Budget(t) == P.Budget(s) && Ahead(t) < Ahead(s))
  {
    ghost var some := P.SomeStep(s);
    var step :| P.Enabled(s, step) && Useful(s, step);
    run' := run;
    if step.ReturnFn? {
      step, run' := Return(w, jobs, s, run, step);
    } else {
      TracksStep(jobs, s, run, step);
      run' := run.(canceled := P.Apply(s, step).reached);
      assert run'.events[|run.events|..] == [];
    }
    Stepped(|jobs|, s, step);
    t := P.Apply(s, step);
  }

  /** The runner has not answered nil to a cancellation that reached it. */
  predicate NilMeansLive(s: P.State) {
    s.pc.Returned? && s.pc.result.Nil? ==> !s.reached
  }

  lemma Stepped(items: nat, s: P.State, step: P.Step)
    requires P.Reachable(items, s) && P.Inv(s) && P.Enabled(s, step) && Useful(s, step)
    ensures var t := P.Apply(s, step);
            && P.Reachable(items, t) && P.Inv(t) && t.items == s.items
            && (!s.pc.Returned? ==> NilMeansLive(t))
            && (P.Budget(t) < P.Budget(s) || (P.Budget(t) == P.Budget(s) && Ahead(t) < Ahead(s)))
  {
    P.StepUsesBudget(s, step);
    P.StepKeepsInv(s, step);
    P.ReachStep(items, s, step, P.Apply(s, step));
    StepIsTimely(s, step);
  }

  lemma StepIsTimely(s: P.State, step: P.Step)
    requires P.Inv(s) && P.Enabled(s, step) && Useful(s, step)
    ensures P.Apply(s, step).items == s.items
    ensures !s.pc.Returned? ==> NilMeansLive(P.Apply(s, step))
    ensures P.ByEnvironment(step) ==> Ahead(P.Apply(s, step)) < Ahead(s)
  {
  }

  /** The runner under an arbitrary scheduler.  It always returns, and every request it makes is
      made by a goroutine of the machine in `Parallel`, one after another in the order the calls
      return. */
  method ParallelForEach(w: Remote, jobs: seq<Job>) returns (r: P.Result, ghost run: Transfer)
    modifies w
    ensures w.state == AfterAll(old(w.state), run.events)
    ensures w.attempts == old(w.attempts) + |run.events|
    ensures TransferOk(jobs, run, r)
  {
    var s := P.Init(|jobs|);
    run := Transfer([], [], false);
    Started(jobs);
    while !s.pc.Returned?
      invariant Running(jobs, s, run) && NilMeansLive(s)
      invariant w.state == AfterAll(old(w.state), run.events)
      invariant w.attempts == old(w.attempts) + |run.events|
      decreases P.Budget(s), Ahead(s)
    {
      ghost var before := run.events;
      s, run := Advance(w, jobs, s, run);
      Continued(old(w.state), before, run.events);
    }
    r := s.pc.result;
    Returned(jobs, s, run);
  }

  lemma Started(jobs: seq<Job>)
    ensures Running(jobs, P.Init(|jobs|), Transfer([], [], false)) && NilMeansLive(P.Init(|jobs|))
  {
    P.InitInv(|jobs|);
    assert P.Run(P.Init(|jobs|), [], P.Init(|jobs|));
  }

  lemma Continued(s: State, before: seq<Event>, events: seq<Event>)
    requires before <= events
    ensures AfterAll(AfterAll(s, before), events[|before|..]) == AfterAll(s, events)
  {
    assert events == before + events[|before|..];
    AfterAllAppend(s, before, events[|before|..]);
  }

  lemma Returned(jobs: seq<Job>, s: P.State, run: Transfer)
    requires P.Reachable(|jobs|, s) && s.pc.Returned? && Tracks(jobs, s, run) && NilMeansLive(s)
    ensures TransferOk(jobs, run, s.pc.result)
  {
    P.ResultTheorem(|jobs|, s);
    if i :| 0 <= i < |s.workers| && s.workers[i].outcome.Failed? {
      assert i in run.sent;
      var k :| 0 <= k < |run.sent| && run.sent[k] == i;
      assert !Succeeded(run.events[k]);
    }
  }
}
