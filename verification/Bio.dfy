/**
  Background workers as interleaved steps. Each worker has a mutex, a queue of
  jobs and counters by job type; a job leaves the queue only after it has run.
  Every access to the queue or a counter is a step of its own, taken by whoever
  holds the mutex; running a job happens outside of it.
  */
module Bio {
  import opened Basics

  datatype JobType =
    | CloseFile | AofFsync | CloseAof | LazyFree
    | CompRqCloseFile | CompRqAofFsync | CompRqLazyFree

  datatype Job = Job(id: nat, jobType: JobType)

  /** bio_job_to_worker */
  function WorkerOf(t: JobType): (w: nat)
    ensures w < 3
  {
    match t
    case CloseFile => 0
    case CompRqCloseFile => 0
    case AofFsync => 1
    case CloseAof => 1
    case CompRqAofFsync => 1
    case LazyFree => 2
    case CompRqLazyFree => 2
  }

  /** Where the worker thread is. */
  datatype Pc =
    | Waiting              // without the mutex, before the first loop turn or in cond_wait
    | AtHead               // with the mutex, at the head of the loop
    | Busy(job: Job)       // without the mutex, running the job
    | Ran(job: Job)        // without the mutex, the job has run
    | Removing(job: Job)   // with the mutex, about to unlink the node
    | Counting(job: Job)   // with the mutex, the node is unlinked, the counter not yet decremented

  /** What the client thread that holds the mutex is about to do. */
  datatype Errand =
    | Append(job: Job)     // bioSubmitJob, before the job is linked
    | CountUp(job: Job)    // bioSubmitJob, before the counter is incremented
    | ReadCounter(jobType: JobType)
    | CheckEmpty(drain: nat)
    | Leave

  datatype Lock = Free | Worker | Client(errand: Errand)

  /**
    One worker. The last four fields are history: the jobs submitted, unlinked
    and run, in order, and for each call of bioDrainWorker under way the number
    of jobs submitted before it.
    */
  datatype State = State(
    worker: nat, queue: seq<Job>, counters: map<JobType, nat>, lock: Lock, pc: Pc,
    submitted: seq<Job>, unlinked: seq<Job>, completed: seq<Job>, drains: map<nat, nat>)

  // ---- steps ----

  datatype Step =
    | LockToSubmit(job: Job) | LinkJob | IncrementCounter
    | LockToRead(jobType: JobType) | ReadIt
    | CallDrain(drain: nat) | LockToDrain(drain: nat) | DrainWaits | DrainReturns
    | Unlock
    | WorkerLocks | WorkerWaits | WorkerTakes | WorkerRuns | WorkerLocksAgain | WorkerUnlinks | WorkerDecrements

  function CounterOf(s: State, t: JobType): nat { if t in s.counters then s.counters[t] else 0 }

  predicate Enabled(s: State, step: Step) {
    match step
    case LockToSubmit(job) => s.lock.Free? && WorkerOf(job.jobType) == s.worker
    case LinkJob => s.lock.Client? && s.lock.errand.Append?
    case IncrementCounter => s.lock.Client? && s.lock.errand.CountUp?
    case LockToRead(t) => s.lock.Free? && WorkerOf(t) == s.worker
    case ReadIt => s.lock.Client? && s.lock.errand.ReadCounter?
    case CallDrain(d) => d !in s.drains
    case LockToDrain(d) => s.lock.Free? && d in s.drains
    case DrainWaits => s.lock.Client? && s.lock.errand.CheckEmpty? && s.queue != []
    case DrainReturns => s.lock.Client? && s.lock.errand.CheckEmpty? && s.queue == []
    case Unlock => s.lock == Client(Leave)
    case WorkerLocks => s.pc.Waiting? && s.lock.Free?
    case WorkerWaits => s.pc.AtHead? && s.queue == []
    case WorkerTakes => s.pc.AtHead? && s.queue != []
    case WorkerRuns => s.pc.Busy?
    case WorkerLocksAgain => s.pc.Ran? && s.lock.Free?
    case WorkerUnlinks => s.pc.Removing? && s.queue != []
    case WorkerDecrements => s.pc.Counting? && CounterOf(s, s.pc.job.jobType) > 0
  }

  function Do(s: State, step: Step): State
    requires Enabled(s, step)
  {
    match step
    case LockToSubmit(job) => s.(lock := Client(Append(job)))
    case LinkJob =>
      var job := s.lock.errand.job;
      s.(queue := s.queue + [job], submitted := s.submitted + [job], lock := Client(CountUp(job)))
    case IncrementCounter =>
      var t := s.lock.errand.job.jobType;
      s.(counters := s.counters[t := CounterOf(s, t) + 1], lock := Client(Leave))
    case LockToRead(t) => s.(lock := Client(ReadCounter(t)))
    case ReadIt => s.(lock := Client(Leave))
    case CallDrain(d) => s.(drains := s.drains[d := |s.submitted|])
    case LockToDrain(d) => s.(lock := Client(CheckEmpty(d)))
    case DrainWaits => s.(lock := Free)
    case DrainReturns => s.(drains := s.drains - {s.lock.errand.drain}, lock := Client(Leave))
    case Unlock => s.(lock := Free)
    case WorkerLocks => s.(pc := AtHead, lock := Worker)
    case WorkerWaits => s.(pc := Waiting, lock := Free)
    case WorkerTakes => s.(pc := Busy(s.queue[0]), lock := Free)
    case WorkerRuns => s.(pc := Ran(s.pc.job), completed := s.completed + [s.pc.job])
    case WorkerLocksAgain => s.(pc := Removing(s.pc.job), lock := Worker)
    case WorkerUnlinks => s.(pc := Counting(s.pc.job), queue := s.queue[1..], unlinked := s.unlinked + [s.queue[0]])
    case WorkerDecrements =>
      var t := s.pc.job.jobType;
      s.(pc := AtHead, counters := s.counters[t := CounterOf(s, t) - 1])
  }

  function Initial(worker: nat): State { State(worker, [], map[], Free, Waiting, [], [], [], map[]) }

  // ---- the invariant ----

  function OfType(jobs: seq<Job>, t: JobType): nat {
    if jobs == [] then 0 else OfType(jobs[..|jobs| - 1], t) + Count(jobs[|jobs| - 1].jobType == t)
  }

  lemma {:induction false} OfTypeFirst(jobs: seq<Job>, t: JobType)
    requires jobs != []
    ensures OfType(jobs, t) == Count(jobs[0].jobType == t) + OfType(jobs[1..], t)
    decreases |jobs|
  {
    if |jobs| > 1 {
      OfTypeFirst(jobs[..|jobs| - 1], t);
      assert jobs[..|jobs| - 1][1..] == jobs[1..][..|jobs| - 2];
    } else {
      assert jobs[..0] == [] && jobs[1..] == [];
    }
  }

  /** The worker has the mutex exactly where its code holds it. */
  predicate LockOk(s: State) { s.lock.Worker? <==> s.pc.AtHead? || s.pc.Removing? || s.pc.Counting? }

  /** The job in hand is the first of the queue, and stays there until it is unlinked. */
  predicate JobOk(s: State) { s.pc.Busy? || s.pc.Ran? || s.pc.Removing? ==> s.queue != [] && s.queue[0] == s.pc.job }

  predicate HistoryOk(s: State) {
    && s.submitted == s.unlinked + s.queue
    && s.completed == s.unlinked + (if (s.pc.Ran? || s.pc.Removing?) && s.queue != [] then [s.queue[0]] else [])
    && (s.pc.Counting? ==> s.unlinked != [] && s.unlinked[|s.unlinked| - 1] == s.pc.job)
  }

  /** A counter is off only while someone with the mutex is between the queue and the counter. */
  ghost predicate CountersOk(s: State) { forall t: JobType :: CounterOk(s, t) }

  predicate CounterOk(s: State, t: JobType) {
    CounterOf(s, t) + Count(s.lock.Client? && s.lock.errand.CountUp? && s.lock.errand.job.jobType == t)
    == OfType(s.queue, t) + Count(s.pc.Counting? && s.pc.job.jobType == t)
  }

  predicate DrainsOk(s: State) { forall d <- s.drains :: s.drains[d] <= |s.submitted| }

  /** Jobs are with the worker of their type. */
  predicate TypesOk(s: State) {
    && (forall i :: 0 <= i < |s.submitted| ==> WorkerOf(s.submitted[i].jobType) == s.worker)
    && (s.lock.Client? && s.lock.errand.Append? ==> WorkerOf(s.lock.errand.job.jobType) == s.worker)
  }

  ghost predicate Inv(s: State) {
    LockOk(s) && JobOk(s) && HistoryOk(s) && CountersOk(s) && DrainsOk(s) && TypesOk(s)
  }

  lemma InitialInv(worker: nat)
    ensures Inv(Initial(worker))
  {
  }

  lemma StepKeeps(s: State, step: Step)
    requires Inv(s) && Enabled(s, step)
    ensures Inv(Do(s, step)) && Do(s, step).worker == s.worker
  {
    StepHistory(s, step);
    StepCounters(s, step);
  }

  lemma StepHistory(s: State, step: Step)
    requires Inv(s) && Enabled(s, step)
    ensures var t := Do(s, step); LockOk(t) && JobOk(t) && HistoryOk(t) && DrainsOk(t) && TypesOk(t) && t.worker == s.worker
  {
    hide CountersOk;
    match step
    case LinkJob => assert s.submitted + [s.lock.errand.job] == s.unlinked + (s.queue + [s.lock.errand.job]);
    case WorkerUnlinks => assert s.unlinked + s.queue == (s.unlinked + [s.queue[0]]) + s.queue[1..];
    case _ =>
  }

  lemma StepCounter(s: State, step: Step, t: JobType)
    requires LockOk(s) && JobOk(s) && CounterOk(s, t) && Enabled(s, step)
    ensures CounterOk(Do(s, step), t)
  {
    if step.LinkJob? {
      var q := s.queue + [s.lock.errand.job];
      assert q[..|q| - 1] == s.queue;
    } else if step.WorkerUnlinks? {
      OfTypeFirst(s.queue, t);
    }
  }

  lemma StepCounters(s: State, step: Step)
    requires Inv(s) && Enabled(s, step)
    ensures CountersOk(Do(s, step))
  {
    hide LockOk, JobOk, HistoryOk, DrainsOk, TypesOk, CounterOk, Do;
    forall t: JobType ensures CounterOk(Do(s, step), t) {
      StepCounter(s, step, t);
    }
  }

  // ---- every run of the three workers ----

  /** A step of one of the workers. */
  datatype Move = Move(worker: nat, step: Step)

  type System = seq<State>

  ghost predicate IsRun(run: seq<System>, moves: seq<Move>) {
    && |run| == |moves| + 1 && run[0] == [Initial(0), Initial(1), Initial(2)]
    && forall i :: 0 <= i < |moves| ==> IsMove(run[i], moves[i], run[i + 1])
  }

  ghost predicate IsMove(s: System, m: Move, t: System) {
    m.worker < |s| == 3 && Enabled(s[m.worker], m.step) && t == s[m.worker := Do(s[m.worker], m.step)]
  }

  lemma {:induction false} RunKeeps(run: seq<System>, moves: seq<Move>, i: nat, w: nat)
    requires IsRun(run, moves) && i < |run| && w < 3
    ensures |run[i]| == 3 && Inv(run[i][w]) && run[i][w].worker == w
    decreases i
  {
    hide Inv;
    if i == 0 {
      InitialInv(w);
    } else {
      RunKeeps(run, moves, i - 1, w);
      assert IsMove(run[i - 1], moves[i - 1], run[i - 1 + 1]);
      if moves[i - 1].worker == w {
        StepKeeps(run[i - 1][w], moves[i - 1].step);
      }
    }
  }

  lemma {:induction false} SubmittedGrows(run: seq<System>, moves: seq<Move>, i: nat, j: nat, w: nat)
    requires IsRun(run, moves) && i <= j < |run| && w < 3
    ensures |run[i]| == |run[j]| == 3 && run[i][w].submitted <= run[j][w].submitted
    decreases j
  {
    RunKeeps(run, moves, j, w);
    hide Inv;
    if i < j {
      SubmittedGrows(run, moves, i, j - 1, w);
      assert IsMove(run[j - 1], moves[j - 1], run[j - 1 + 1]);
    }
  }

  /** Each worker finishes jobs in the order in which they were submitted. */
  lemma FinishInOrder(run: seq<System>, moves: seq<Move>, i: nat, w: nat)
    requires IsRun(run, moves) && i < |run| && w < 3
    ensures |run[i]| == 3 && run[i][w].completed <= run[i][w].submitted
  {
    RunKeeps(run, moves, i, w);
    var s := run[i][w];
    assert s.submitted == s.unlinked + s.queue;
    if s.queue != [] {
      assert s.queue == [s.queue[0]] + s.queue[1..];
    }
  }

  /**
    What bioPendingJobsOfType reads under the mutex is the number of jobs of the
    type that are queued or running, and no other worker has any.
    */
  lemma CounterIsExact(run: seq<System>, moves: seq<Move>, i: nat, t: JobType)
    requires IsRun(run, moves) && i < |run|
    ensures |run[i]| == 3
    ensures var s := run[i][WorkerOf(t)];
      s.lock == Client(ReadCounter(t)) ==> CounterOf(s, t) == OfType(s.queue, t)
    ensures var s := run[i][WorkerOf(t)]; s.submitted == s.unlinked + s.queue && s.unlinked <= s.completed
    ensures forall w: nat :: w < 3 && w != WorkerOf(t) ==> OfType(run[i][w].submitted, t) == 0
  {
    RunKeeps(run, moves, i, WorkerOf(t));
    assert CounterOk(run[i][WorkerOf(t)], t);
    forall w: nat | w < 3 && w != WorkerOf(t) ensures OfType(run[i][w].submitted, t) == 0 {
      RunKeeps(run, moves, i, w);
      NoneOfType(run[i][w].submitted, t);
    }
  }

  lemma {:induction false} NoneOfType(jobs: seq<Job>, t: JobType)
    requires forall i :: 0 <= i < |jobs| ==> jobs[i].jobType != t
    ensures OfType(jobs, t) == 0
    decreases |jobs|
  {
    if jobs != [] {
      NoneOfType(jobs[..|jobs| - 1], t);
    }
  }

  /** The completion request that goes with jobs of a type. */
  predicate Announces(request: JobType, t: JobType) {
    || (request == CompRqCloseFile && t == CloseFile)
    || (request == CompRqAofFsync && (t == AofFsync || t == CloseAof))
    || (request == CompRqLazyFree && t == LazyFree)
  }

  /** At move `a` bioSubmitJob links the job. */
  ghost predicate Links(run: seq<System>, moves: seq<Move>, a: nat, job: Job)
    requires a < |moves| && a < |run|
  {
    moves[a].step == LinkJob && moves[a].worker < |run[a]| && run[a][moves[a].worker].lock == Client(Append(job))
  }

  /**
    A completion request runs after every job of its kind that was submitted before it: both are
    with the same worker, and when the request has run, so has the job.
    */
  lemma RequestRunsAfterJobs(run: seq<System>, moves: seq<Move>, a: nat, b: nat, i: nat, job: Job, request: Job)
    requires IsRun(run, moves) && a < b < |moves| && b < i < |run|
    requires Links(run, moves, a, job) && Links(run, moves, b, request) && Announces(request.jobType, job.jobType)
    ensures moves[a].worker == moves[b].worker < |run[a]| == |run[b]| == |run[i]|
    ensures var w := moves[a].worker;
      var at, last, done := |run[a][w].submitted|, |run[b][w].submitted|, run[i][w].completed;
      && at < last
      && (last < |done| ==> done[last] == request)
      && (at < |done| ==> done[at] == job)
  {
    Linked(run, moves, a, job);
    Linked(run, moves, b, request);
    var w := moves[a].worker;
    SubmittedGrows(run, moves, a + 1, b, w);
    SubmittedGrows(run, moves, b + 1, i, w);
    FinishInOrder(run, moves, i, w);
    hide Inv, IsRun;
  }

  lemma Linked(run: seq<System>, moves: seq<Move>, a: nat, job: Job)
    requires IsRun(run, moves) && a < |moves| && Links(run, moves, a, job)
    ensures |run[a]| == |run[a + 1]| == 3 && moves[a].worker == WorkerOf(job.jobType)
    ensures run[a + 1][moves[a].worker].submitted == run[a][moves[a].worker].submitted + [job]
  {
    assert IsMove(run[a], moves[a], run[a + 1]);
    RunKeeps(run, moves, a, moves[a].worker);
  }

  /** When bioDrainWorker returns, every job submitted to the worker before the call has run. */
  lemma DrainIsComplete(run: seq<System>, moves: seq<Move>, called: nat, returned: nat, w: nat, d: nat)
    requires IsRun(run, moves) && called < returned < |moves| && w < 3
    requires moves[called] == Move(w, CallDrain(d)) && moves[returned] == Move(w, DrainReturns)
    ensures |run[called]| == |run[returned]| == 3
    ensures run[called][w].submitted <= run[returned][w].completed == run[returned][w].submitted
  {
    RunKeeps(run, moves, returned, w);
    SubmittedGrows(run, moves, called, returned, w);
    assert IsMove(run[returned], moves[returned], run[returned + 1]);
    var s := run[returned][w];
    assert s.unlinked + [] == s.unlinked;
  }

  /** The worker's unlocked assumptions hold: its node is still linked and its counter positive when it comes back. */
  lemma WorkerMayProceed(run: seq<System>, moves: seq<Move>, i: nat, w: nat)
    requires IsRun(run, moves) && i < |run| && w < 3
    ensures |run[i]| == 3
    ensures run[i][w].pc.Removing? ==> Enabled(run[i][w], WorkerUnlinks) && run[i][w].queue[0] == run[i][w].pc.job
    ensures run[i][w].pc.Counting? ==> Enabled(run[i][w], WorkerDecrements)
  {
    RunKeeps(run, moves, i, w);
    var s := run[i][w];
    if s.pc.Counting? {
      assert CounterOk(s, s.pc.job.jobType);
    }
  }
}
