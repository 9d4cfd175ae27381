/** The worker pool of the dump import: a queue of threads closed by one sentinel per worker, shared
    counters, and a stop flag raised by too many failures. */
module ImportPool {

  datatype Task = Thread(index: nat) | Sentinel

  datatype Outcome = Inserted | Updated | Unchanged | Duplicate | Skipped | Failed

  /** A worker between two tasks, ingesting a thread, about to count its outcome, or returned. */
  datatype Worker = Idle | Ingesting(thread: nat) | Counting(thread: nat, outcome: Outcome) | Returned

  datatype Counters = Counters(
    processed: nat, inserted: nat, updated: nat, unaltered: nat, duplicates: nat, skipped: nat, failed: nat)

  /** `started` lists the threads whose ingestion began, `drained` counts those taken after the stop. */
  datatype Pool = Pool(
    queue: seq<Task>, workers: seq<Worker>, counters: Counters, stop: bool, started: seq<nat>, drained: nat)

  datatype Job = Job(total: nat, concurrency: nat, maxFailures: nat)

  // ---------- the steps ----------

  datatype Step = Get(worker: nat) | Finish(worker: nat, outcome: Outcome) | Count(worker: nat)

  predicate CanTake(p: Pool, step: Step) {
    step.worker < |p.workers| &&
    match step
    case Get(w) => p.workers[w] == Idle && p.queue != []
    case Finish(w, _) => p.workers[w].Ingesting?
    case Count(w) => p.workers[w].Counting?
  }

  function Counted(c: Counters, outcome: Outcome): Counters {
    var d := c.(processed := c.processed + 1);
    match outcome
    case Inserted => d.(inserted := c.inserted + 1)
    case Updated => d.(updated := c.updated + 1)
    case Unchanged => d.(unaltered := c.unaltered + 1)
    case Duplicate => d.(duplicates := c.duplicates + 1)
    case Skipped => d.(skipped := c.skipped + 1)
    case Failed => d.(failed := c.failed + 1)
  }

  function Take(p: Pool, step: Step, job: Job): Pool
    requires CanTake(p, step)
  {
    match step
    case Get(w) =>
      var q := p.(queue := p.queue[1..]);
      if p.queue[0].Sentinel? then q.(workers := p.workers[w := Returned])
      else if p.stop then q.(drained := p.drained + 1)
      else q.(workers := p.workers[w := Ingesting(p.queue[0].index)], started := p.started + [p.queue[0].index])
    case Finish(w, outcome) =>
      p.(workers := p.workers[w := Counting(p.workers[w].thread, outcome)])
    case Count(w) =>
      var outcome := p.workers[w].outcome;
      var counters := Counted(p.counters, outcome);
      p.(workers := p.workers[w := Idle], counters := counters,
         stop := p.stop || (outcome.Failed? && counters.failed >= job.maxFailures))
  }

  function Tasks(next: nat, total: nat, sentinels: nat): seq<Task>
    requires next <= total
  {
    seq(total - next, i requires 0 <= i => Thread(next + i)) + seq(sentinels, _ => Sentinel)
  }

  function Start(job: Job): Pool {
    Pool(Tasks(0, job.total, job.concurrency), seq(job.concurrency, _ => Idle),
         Counters(0, 0, 0, 0, 0, 0, 0), false, [], 0)
  }

  ghost predicate IsSchedule(p: Pool, steps: seq<Step>, job: Job)
    decreases |steps|
  {
    steps == [] || (CanTake(p, steps[0]) && IsSchedule(Take(p, steps[0], job), steps[1..], job))
  }

  function After(p: Pool, steps: seq<Step>, job: Job): Pool
    requires IsSchedule(p, steps, job)
    decreases |steps|
  {
    if steps == [] then p else After(Take(p, steps[0], job), steps[1..], job)
  }

  // ---------- sums over the workers ----------

  function Total(workers: seq<Worker>, f: Worker -> nat): nat {
    if workers == [] then 0 else f(workers[0]) + Total(workers[1..], f)
  }

  lemma {:induction false} TotalUpdate(workers: seq<Worker>, f: Worker -> nat, w: nat, x: Worker)
    requires w < |workers|
    ensures Total(workers[w := x], f) + f(workers[w]) == Total(workers, f) + f(x)
  {
    if w > 0 {
      TotalUpdate(workers[1..], f, w - 1, x);
      assert workers[w := x][1..] == workers[1..][w - 1 := x];
    } else {
      assert workers[w := x][1..] == workers[1..];
    }
  }

  lemma {:induction false} TotalBound(workers: seq<Worker>, f: Worker -> nat)
    requires forall x :: f(x) <= 1
    ensures Total(workers, f) <= |workers|
  {
    if workers != [] {
      TotalBound(workers[1..], f);
    }
  }

  function IsBusy(x: Worker): nat { if x.Ingesting? || x.Counting? then 1 else 0 }

  function IsAlive(x: Worker): nat { if x == Returned then 0 else 1 }

  /** Steps a worker still needs for the thread it holds. */
  function Pending(x: Worker): nat { if x.Ingesting? then 2 else if x.Counting? then 1 else 0 }

  function Busy(p: Pool): nat { Total(p.workers, IsBusy) }

  function Alive(p: Pool): nat { Total(p.workers, IsAlive) }

  // ---------- what every schedule keeps ----------

  predicate Adds(c: Counters) {
    c.processed == c.inserted + c.updated + c.unaltered + c.duplicates + c.skipped + c.failed
  }

  function Threshold(job: Job): nat { if job.maxFailures > 1 then job.maxFailures else 1 }

  predicate Increasing(s: seq<nat>) {
    forall i, j :: 0 <= i < j < |s| ==> s[i] < s[j]
  }

  function Taken(p: Pool): nat { |p.started| + p.drained }

  ghost predicate Inv(p: Pool, job: Job) {
    && |p.workers| == job.concurrency
    && Taken(p) <= job.total
    && p.queue == Tasks(Taken(p), job.total, Alive(p))
    && (Taken(p) < job.total ==> Alive(p) == job.concurrency)
    && |p.started| == p.counters.processed + Busy(p)
    && Adds(p.counters)
    && Increasing(p.started) && (forall i :: 0 <= i < |p.started| ==> p.started[i] < Taken(p))
    && (!p.stop ==> p.drained == 0 && p.counters.failed < Threshold(job))
    && (p.stop ==>
          && p.counters.failed >= Threshold(job)
          && p.counters.failed + Busy(p) <= Threshold(job) + job.concurrency - 1)
  }

  lemma {:induction false} TotalOfEqual(n: nat, x: Worker, f: Worker -> nat)
    requires f(x) <= 1
    ensures Total(seq(n, _ => x), f) == if f(x) == 0 then 0 else n
  {
    if n > 0 {
      TotalOfEqual(n - 1, x, f);
      assert seq(n, _ => x)[1..] == seq(n - 1, _ => x);
    }
  }

  lemma StartInv(job: Job)
    ensures Inv(Start(job), job)
  {
    hide Tasks, Total;
    TotalOfEqual(job.concurrency, Idle, IsBusy);
    TotalOfEqual(job.concurrency, Idle, IsAlive);
  }

  lemma HeadTask(next: nat, total: nat, sentinels: nat)
    requires next <= total && Tasks(next, total, sentinels) != []
    ensures var q := Tasks(next, total, sentinels);
            if next < total then q[0] == Thread(next) && q[1..] == Tasks(next + 1, total, sentinels)
            else sentinels > 0 && q[0] == Sentinel && q[1..] == Tasks(total, total, sentinels - 1)
  {
  }

  lemma StepInv(p: Pool, step: Step, job: Job)
    requires Inv(p, job) && CanTake(p, step)
    ensures Inv(Take(p, step, job), job)
  {
    hide Tasks, Total;
    var w, t := step.worker, Take(p, step, job);
    TotalUpdate(p.workers, IsBusy, w, t.workers[w]);
    TotalUpdate(p.workers, IsAlive, w, t.workers[w]);
    assert p.workers[w := p.workers[w]] == p.workers;
    TotalBound(p.workers[w := Returned], IsBusy);
    match step {
      case Get(_) => HeadTask(Taken(p), job.total, Alive(p));
      case Finish(_, _) =>
      case Count(_) => TotalBound(p.workers, IsBusy);
    }
  }

  /** In every state of every schedule: the counters add up, no thread is ingested twice, and the failures
      exceed their limit by at most the other workers' threads. */
  lemma {:induction false} EverySchedule(p: Pool, steps: seq<Step>, job: Job)
    requires Inv(p, job) && IsSchedule(p, steps, job)
    ensures var t := After(p, steps, job);
            && Inv(t, job)
            && Adds(t.counters)
            && (forall i, j :: 0 <= i < j < |t.started| ==> t.started[i] != t.started[j])
            && (job.concurrency >= 1 ==> t.counters.failed <= Threshold(job) + job.concurrency - 1)
    decreases |steps|
  {
    hide Tasks, Total, Take, CanTake, Counted;
    if steps != [] {
      StepInv(p, steps[0], job);
      EverySchedule(Take(p, steps[0], job), steps[1..], job);
    }
  }

  // ---------- termination ----------

  function Work(p: Pool): nat {
    3 * |p.queue| + Total(p.workers, Pending)
  }

  lemma StepWorks(p: Pool, step: Step, job: Job)
    requires CanTake(p, step)
    ensures Work(Take(p, step, job)) < Work(p)
  {
    hide Total;
    var w, t := step.worker, Take(p, step, job);
    TotalUpdate(p.workers, Pending, w, t.workers[w]);
    assert p.workers[w := p.workers[w]] == p.workers;
  }

  /** No schedule is longer than the work there is at the start: three steps a thread and three a worker. */
  lemma {:induction false} SchedulesEnd(p: Pool, steps: seq<Step>, job: Job)
    requires IsSchedule(p, steps, job)
    ensures |steps| + Work(After(p, steps, job)) <= Work(p)
    decreases |steps|
  {
    hide Take, CanTake, Work;
    if steps != [] {
      StepWorks(p, steps[0], job);
      SchedulesEnd(Take(p, steps[0], job), steps[1..], job);
    }
  }

  predicate AllReturned(p: Pool) {
    forall w :: 0 <= w < |p.workers| ==> p.workers[w] == Returned
  }

  lemma {:induction false} SomeoneAlive(workers: seq<Worker>, w: nat)
    requires w < |workers| && workers[w] != Returned
    ensures Total(workers, IsAlive) > 0
  {
    if w > 0 {
      SomeoneAlive(workers[1..], w - 1);
    }
  }

  /** A worker that has not returned can always take a step: an idle one finds a task. */
  lemma NobodyStarves(p: Pool, w: nat, job: Job)
    requires Inv(p, job) && w < |p.workers| && p.workers[w] != Returned
    ensures CanTake(p, Get(w)) || CanTake(p, Finish(w, Failed)) || CanTake(p, Count(w))
  {
    SomeoneAlive(p.workers, w);
  }

  lemma {:induction false} NobodyIsBusy(workers: seq<Worker>)
    requires forall w :: 0 <= w < |workers| ==> workers[w] == Returned
    ensures Total(workers, IsBusy) == 0 && Total(workers, IsAlive) == 0
  {
    if workers != [] {
      assert forall w :: 0 <= w < |workers[1..]| ==> workers[1..][w] == workers[w + 1];
      NobodyIsBusy(workers[1..]);
    }
  }

  /** When all workers have returned, every thread was taken: without a stop each was ingested exactly once
      and counted, in the order of the queue; after a stop the rest was drained. */
  lemma AtTheEnd(p: Pool, job: Job)
    requires Inv(p, job) && AllReturned(p) && job.concurrency >= 1
    ensures p.queue == []
    ensures p.counters.processed + p.drained == job.total
    ensures !p.stop ==> p.counters.processed == job.total && p.started == seq(job.total, i => i)
    ensures p.stop ==> p.counters.failed >= Threshold(job)
  {
    NobodyIsBusy(p.workers);
    if !p.stop {
      IncreasingIsAll(p.started, job.total);
    }
  }

  lemma Bounds(p: Pool, job: Job)
    requires Inv(p, job) && job.concurrency >= 1
    ensures Adds(p.counters) && p.counters.failed <= Threshold(job) + job.concurrency - 1
    ensures if p.stop then p.counters.failed >= Threshold(job) else p.counters.failed < Threshold(job)
  {
  }

  lemma {:induction false} IncreasingIsAll(s: seq<nat>, n: nat)
    requires Increasing(s) && |s| == n && forall i :: 0 <= i < |s| ==> s[i] < n
    ensures s == seq(n, i => i)
  {
    if n > 0 {
      assert forall i :: 0 <= i < n - 1 ==> s[i] < s[n - 1];
      IncreasingIsAll(s[..n - 1], n - 1);
      AtLeastIndex(s, n - 1);
    }
  }

  lemma {:induction false} AtLeastIndex(s: seq<nat>, i: nat)
    requires Increasing(s) && i < |s|
    ensures s[i] >= i
  {
    if i > 0 {
      AtLeastIndex(s, i - 1);
    }
  }

  /** The bound on failures is reached: with one failure allowed and two workers, both fail. */
  lemma FailuresReachTheBound()
    ensures var job := Job(2, 2, 1);
            var steps := [Get(0), Get(1), Finish(0, Failed), Finish(1, Failed), Count(0), Count(1)];
            IsSchedule(Start(job), steps, job)
                && After(Start(job), steps, job).counters.failed == Threshold(job) + job.concurrency - 1
  {
    var job := Job(2, 2, 1);
    var p0 := Start(job);
    var p1 := Take(p0, Get(0), job);
    var p2 := Take(p1, Get(1), job);
    var p3 := Take(p2, Finish(0, Failed), job);
    var p4 := Take(p3, Finish(1, Failed), job);
    var p5 := Take(p4, Count(0), job);
    assert IsSchedule(p5, [Count(1)], job);
    assert [Count(0), Count(1)][1..] == [Count(1)];
    assert IsSchedule(p4, [Count(0), Count(1)], job);
    assert [Finish(1, Failed), Count(0), Count(1)][1..] == [Count(0), Count(1)];
    assert IsSchedule(p3, [Finish(1, Failed), Count(0), Count(1)], job);
    assert [Finish(0, Failed), Finish(1, Failed), Count(0), Count(1)][1..] == [Finish(1, Failed), Count(0), Count(1)];
    assert IsSchedule(p2, [Finish(0, Failed), Finish(1, Failed), Count(0), Count(1)], job);
    assert [Get(1), Finish(0, Failed), Finish(1, Failed), Count(0), Count(1)][1..]
        == [Finish(0, Failed), Finish(1, Failed), Count(0), Count(1)];
    assert IsSchedule(p1, [Get(1), Finish(0, Failed), Finish(1, Failed), Count(0), Count(1)], job);
    var steps := [Get(0), Get(1), Finish(0, Failed), Finish(1, Failed), Count(0), Count(1)];
    assert steps[1..] == [Get(1), Finish(0, Failed), Finish(1, Failed), Count(0), Count(1)];
  }

  // ---------- the pool itself ----------

  class Import {
    const job: Job
    var queue: seq<Task>
    var workers: seq<Worker>
    var counters: Counters
    var stop: bool
    ghost var started: seq<nat>
    ghost var drained: nat

    ghost function View(): Pool
      reads this
    {
      Pool(queue, workers, counters, stop, started, drained)
    }

    constructor (job: Job)
      ensures this.job == job && View() == Start(job)
    {
      this.job := job;
      queue := Tasks(0, job.total, job.concurrency);
      workers := seq(job.concurrency, _ => Idle);
      counters, stop, started, drained := Counters(0, 0, 0, 0, 0, 0, 0), false, [], 0;
    }

    method TakeTask(w: nat)
      requires CanTake(View(), Get(w))
      modifies this
      ensures View() == Take(old(View()), Get(w), job)
    {
      var task := queue[0];
      queue := queue[1..];
      if task == Sentinel {
        workers := workers[w := Returned];
      } else if stop {
        drained := drained + 1;
      } else {
        workers := workers[w := Ingesting(task.index)];
        started := started + [task.index];
      }
    }

    method CountOutcome(w: nat)
      requires CanTake(View(), Count(w))
      modifies this
      ensures View() == Take(old(View()), Count(w), job)
    {
      counters := counters.(processed := counters.processed + 1);
      match workers[w].outcome {
        case Inserted => counters := counters.(inserted := counters.inserted + 1);
        case Updated => counters := counters.(updated := counters.updated + 1);
        case Unchanged => counters := counters.(unaltered := counters.unaltered + 1);
        case Duplicate => counters := counters.(duplicates := counters.duplicates + 1);
        case Skipped => counters := counters.(skipped := counters.skipped + 1);
        case Failed =>
          counters := counters.(failed := counters.failed + 1);
          if counters.failed >= job.maxFailures { stop := true; }
      }
      workers := workers[w := Idle];
    }

    /** _import_selection under any schedule: it ends, and reports an error exactly when it was stopped. */
    method Run() returns (stoppedByFailures: bool)
      requires View() == Start(job) && job.concurrency >= 1
      modifies this
      ensures AllReturned(View()) && Inv(View(), job)
      ensures stoppedByFailures == stop
      ensures Adds(counters) && counters.failed <= Threshold(job) + job.concurrency - 1
      ensures !stoppedByFailures ==> counters.processed == job.total && counters.failed < Threshold(job)
      ensures stoppedByFailures ==> counters.failed >= Threshold(job)
    {
      hide Inv, Work, Start, Counted, Adds;
      StartInv(job);
      while exists w :: 0 <= w < |workers| && workers[w] != Returned
        invariant Inv(View(), job)
        decreases Work(View())
      {
        var w :| 0 <= w < |workers| && workers[w] != Returned;
        ghost var before := View();
        NobodyStarves(before, w, job);
        if workers[w] == Idle {
          StepInv(before, Get(w), job);
          StepWorks(before, Get(w), job);
          TakeTask(w);
        } else if workers[w].Ingesting? {
          var outcome: Outcome := *;
          StepInv(before, Finish(w, outcome), job);
          StepWorks(before, Finish(w, outcome), job);
          workers := workers[w := Counting(workers[w].thread, outcome)];
        } else {
          StepInv(before, Count(w), job);
          StepWorks(before, Count(w), job);
          CountOutcome(w);
        }
      }
      AtTheEnd(View(), job);
      Bounds(View(), job);
      stoppedByFailures := stop;
    }
  }
}
