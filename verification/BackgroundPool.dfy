/** The auxiliary background pool of src/bridge_core.py, while the bridge runs and nothing is
    cancelled: a bounded queue that drops its oldest job, at most five workers, and a counter
    for launches requested from other threads.  One step is what the event loop, or a foreign
    thread under the counter's lock, does without interruption. */
module BackgroundPool {
  import opened Common

  type Job = nat
  type Task = nat

  const BG_CAPACITY := 256
  const BG_WORKERS_LIMIT := 5
  const CROSS_THREAD_LIMIT := 256

  /** `workers` is the bridge's own set, which may still hold tasks that are done; `alive` are
      the tasks that are not.  `inFlight` counts the foreign calls that were counted but have
      not posted their launch, `posted` the launches the loop has yet to run. */
  datatype Pool = Pool(
    queue: seq<Job>, workers: set<Task>, alive: set<Task>, done: set<Task>,
    crossThread: int, inFlight: nat, posted: nat)

  const INIT := Pool([], {}, {}, {}, 0, 0, 0)

  datatype Step =
    | Schedule(job: Job, spare: Task)          // _schedule_background on the loop's thread
    | RequestLaunch                            // from another thread: the locked count
    | PostLaunch                               // call_soon_threadsafe
    | PostFails                                // it raises RuntimeError
    | Launch(job: Job, spare: Task)            // threadsafe_launch on the loop
    | Take(task: Task)                         // a worker takes the next job
    | Exit(task: Task)                         // a worker finds the queue empty
    | WorkerDone(task: Task, spare: Task)      // the done callback

  // ---------------------------------------------------------------- the operations

  /** `_ensure_bg_worker`; `spare` is the task it may create. */
  function Ensure(p: Pool, spare: Task): Pool {
    var workers := p.workers * p.alive;
    if p.queue == [] || |workers| >= BG_WORKERS_LIMIT then p.(workers := workers)
    else p.(workers := workers + {spare}, alive := p.alive + {spare})
  }

  function Enqueue(p: Pool, job: Job, spare: Task): Pool {
    var kept := if |p.queue| >= BG_CAPACITY then p.queue[1..] else p.queue;
    Ensure(p.(queue := kept + [job]), spare)
  }

  function FinishWorker(p: Pool, task: Task, spare: Task): Pool {
    Ensure(p.(workers := p.workers - {task}, done := p.done - {task}), spare)
  }

  predicate Unused(p: Pool, spare: Task) {
    spare !in p.workers && spare !in p.alive && spare !in p.done
  }

  predicate Enabled(p: Pool, step: Step) {
    match step
    case Schedule(_, spare) => Unused(p, spare)
    case RequestLaunch => true
    case PostLaunch => p.inFlight > 0
    case PostFails => p.inFlight > 0
    case Launch(_, spare) => p.posted > 0 && Unused(p, spare)
    case Take(task) => task in p.alive && p.queue != []
    case Exit(task) => task in p.alive && p.queue == []
    case WorkerDone(task, spare) => task in p.done && Unused(p, spare)
  }

  function Next(p: Pool, step: Step): Pool
    requires Enabled(p, step)
  {
    match step
    case Schedule(job, spare) => Enqueue(p, job, spare)
    case RequestLaunch =>
      if p.crossThread >= CROSS_THREAD_LIMIT then p
      else p.(crossThread := p.crossThread + 1, inFlight := p.inFlight + 1)
    case PostLaunch => p.(inFlight := p.inFlight - 1, posted := p.posted + 1)
    case PostFails => p.(crossThread := p.crossThread - 1, inFlight := p.inFlight - 1)
    case Launch(job, spare) => Enqueue(p, job, spare).(crossThread := p.crossThread - 1, posted := p.posted - 1)
    case Take(task) => p.(queue := p.queue[1..])
    case Exit(task) => p.(alive := p.alive - {task}, done := p.done + {task})
    case WorkerDone(task, spare) => FinishWorker(p, task, spare)
  }

  function Run(p: Pool, steps: seq<Step>): Pool
    decreases |steps|
  {
    if steps == [] then p
    else Run(if Enabled(p, steps[0]) then Next(p, steps[0]) else p, steps[1..])
  }

  // ---------------------------------------------------------------- what every step keeps

  ghost predicate Inv(p: Pool) {
    && |p.queue| <= BG_CAPACITY
    && p.alive <= p.workers <= p.alive + p.done && p.alive !! p.done
    && |p.workers| <= BG_WORKERS_LIMIT
    && (p.queue != [] ==> p.alive != {})
    && 0 <= p.crossThread == p.inFlight + p.posted <= CROSS_THREAD_LIMIT
  }

  /** After `_ensure_bg_worker` a waiting job has a worker, whatever it had before. */
  lemma EnsureWakes(p: Pool, spare: Task)
    requires p.alive <= p.workers <= p.alive + p.done && p.alive !! p.done
    requires |p.workers| <= BG_WORKERS_LIMIT && Unused(p, spare)
    ensures var q := Ensure(p, spare);
            && q.alive <= q.workers <= q.alive + q.done && q.alive !! q.done
            && |q.workers| <= BG_WORKERS_LIMIT
            && (q.queue != [] ==> q.alive != {})
  {
    SubsetSize(p.workers * p.alive, p.workers);
    SubsetSize(p.workers * p.alive, p.alive);
  }

  lemma EnqueueKeepsInv(p: Pool, job: Job, spare: Task)
    requires Inv(p) && Unused(p, spare)
    ensures Inv(Enqueue(p, job, spare))
  {
    EnsureWakes(p.(queue := (if |p.queue| >= BG_CAPACITY then p.queue[1..] else p.queue) + [job]), spare);
  }

  lemma FinishKeepsInv(p: Pool, task: Task, spare: Task)
    requires Inv(p) && task in p.done && Unused(p, spare)
    ensures Inv(FinishWorker(p, task, spare))
  {
    SubsetSize(p.workers - {task}, p.workers);
    EnsureWakes(p.(workers := p.workers - {task}, done := p.done - {task}), spare);
  }

  lemma StepKeepsInv(p: Pool, step: Step)
    requires Inv(p) && Enabled(p, step)
    ensures Inv(Next(p, step))
  {
    match step
    case Schedule(job, spare) => EnqueueKeepsInv(p, job, spare);
    case Launch(job, spare) => EnqueueKeepsInv(p, job, spare);
    case WorkerDone(task, spare) => FinishKeepsInv(p, task, spare);
    case RequestLaunch =>
    case PostLaunch =>
    case PostFails =>
    case Take(task) =>
    case Exit(task) =>
  }

  /** In every run: the queue stays within its capacity, at most five workers are alive, a
      waiting job always has a live worker, and the cross-thread counter counts exactly the
      launches still to come, of which there are at most 256. */
  lemma NoLostWakeUp(steps: seq<Step>)
    ensures var p := Run(INIT, steps);
            && |p.queue| <= BG_CAPACITY && |p.alive| <= BG_WORKERS_LIMIT
            && (p.queue != [] ==> p.alive != {})
            && 0 <= p.crossThread == p.inFlight + p.posted <= CROSS_THREAD_LIMIT
  {
    RunKeepsInv(INIT, steps);
    SubsetSize(Run(INIT, steps).alive, Run(INIT, steps).workers);
  }

  lemma {:induction false} RunKeepsInv(p: Pool, steps: seq<Step>)
    requires Inv(p)
    ensures Inv(Run(p, steps))
    decreases |steps|
  {
    if steps != [] {
      if Enabled(p, steps[0]) {
        StepKeepsInv(p, steps[0]);
      }
      RunKeepsInv(if Enabled(p, steps[0]) then Next(p, steps[0]) else p, steps[1..]);
    }
  }

  /** The queue keeps the newest jobs, in the order in which they were scheduled. */
  lemma EnqueueKeepsNewest(p: Pool, job: Job, spare: Task)
    requires |p.queue| <= BG_CAPACITY
    ensures Enqueue(p, job, spare).queue == Bounded(p.queue + [job], BG_CAPACITY)
  {
    BoundedSuffix(p.queue + [job], BG_CAPACITY);
  }

  /** Draining ends with nothing left: a live worker that takes |queue| jobs and exits. */
  lemma {:induction false} OneWorkerDrains(p: Pool, task: Task)
    requires Inv(p) && task in p.alive
    ensures var q := Run(p, seq(|p.queue|, _ => Take(task)) + [Exit(task)]);
            q.queue == [] && task in q.done
    decreases |p.queue|
  {
    var steps := seq(|p.queue|, _ => Take(task)) + [Exit(task)];
    if p.queue != [] {
      var p' := Next(p, Take(task));
      assert steps[0] == Take(task);
      assert steps[1..] == seq(|p'.queue|, _ => Take(task)) + [Exit(task)];
      OneWorkerDrains(p', task);
    } else {
      assert steps == [Exit(task)] && steps[1..] == [];
    }
  }

  // ---------------------------------------------------------------- the program

  class Bridge {
    var bgQueue: seq<Job>
    var bgWorkers: set<Task>
    var crossThreadBgCount: int
    ghost var alive: set<Task>
    ghost var done: set<Task>
    ghost var inFlight: nat
    ghost var posted: nat

    ghost function View(): Pool
      reads this
    {
      Pool(bgQueue, bgWorkers, alive, done, crossThreadBgCount, inFlight, posted)
    }

    constructor ()
      ensures View() == INIT
    {
      bgQueue, bgWorkers, crossThreadBgCount := [], {}, 0;
      alive, done, inFlight, posted := {}, {}, 0, 0;
    }

    /** `isDone` lists the tasks of the pool that answer `done()`; `task` is the one that
        `create_task` would return. */
    method EnsureBgWorker(isDone: set<Task>, task: Task) returns (created: bool)
      requires bgWorkers - isDone == bgWorkers * alive
      modifies this`bgWorkers, this`alive
      ensures View() == Ensure(old(View()), task)
      ensures created <==> bgQueue != [] && |old(bgWorkers * alive)| < BG_WORKERS_LIMIT
      ensures bgWorkers == old(bgWorkers * alive) + (if created then {task} else {})
      ensures alive == old(alive) + (if created then {task} else {})
    {
      bgWorkers := bgWorkers - isDone;
      if bgQueue == [] || |bgWorkers| >= BG_WORKERS_LIMIT {
        return false;
      }
      bgWorkers := bgWorkers + {task};
      alive := alive + {task};
      return true;
    }

    method EnqueueAndEnsure(job: Job, isDone: set<Task>, task: Task)
      requires bgWorkers - isDone == bgWorkers * alive
      modifies this`bgQueue, this`bgWorkers, this`alive
      ensures View() == Enqueue(old(View()), job, task)
      ensures bgQueue == (if |old(bgQueue)| >= 256 then old(bgQueue)[1..] else old(bgQueue)) + [job]
      ensures task in alive <==> task in old(alive) || |old(bgWorkers * alive)| < 5
    {
      if |bgQueue| >= BG_CAPACITY {
        bgQueue := bgQueue[1..];
      }
      bgQueue := bgQueue + [job];
      var _ := EnsureBgWorker(isDone, task);
    }

    method BgWorkerDone(worker: Task, isDone: set<Task>, task: Task)
      requires worker in done && bgWorkers - {worker} - isDone == (bgWorkers - {worker}) * alive
      modifies this`bgWorkers, this`alive, this`done
      ensures View() == FinishWorker(old(View()), worker, task)
      ensures worker !in done && (worker == task || worker !in bgWorkers)
    {
      done := done - {worker};
      bgWorkers := bgWorkers - {worker};
      var _ := EnsureBgWorker(isDone, task);
    }

    /** The locked count of a request from another thread. */
    method RequestLaunchSection() returns (counted: bool)
      modifies this`crossThreadBgCount, this`inFlight
      ensures View() == Next(old(View()), RequestLaunch)
      ensures counted <==> old(crossThreadBgCount) < CROSS_THREAD_LIMIT
      ensures crossThreadBgCount == old(crossThreadBgCount) + if counted then 1 else 0
    {
      if crossThreadBgCount >= CROSS_THREAD_LIMIT {
        return false;
      }
      crossThreadBgCount := crossThreadBgCount + 1;
      inFlight := inFlight + 1;
      return true;
    }

    method ThreadsafeLaunch(job: Job, isDone: set<Task>, task: Task)
      requires Enabled(View(), Launch(job, task)) && bgWorkers - isDone == bgWorkers * alive
      modifies this
      ensures View() == Next(old(View()), Launch(job, task))
      ensures crossThreadBgCount == old(crossThreadBgCount) - 1 && bgQueue[|bgQueue| - 1..] == [job]
    {
      EnqueueAndEnsure(job, isDone, task);
      crossThreadBgCount := crossThreadBgCount - 1;
      posted := posted - 1;
    }

    /** One turn of the loop of `_drain_bg_queue`: the next job, or the end of the worker. */
    method DrainTurn(worker: Task) returns (job: seq<Job>)
      requires worker in alive
      modifies this`bgQueue, this`alive, this`done
      ensures old(bgQueue) != [] ==> View() == Next(old(View()), Take(worker)) && job == old(bgQueue[..1])
      ensures old(bgQueue) == [] ==> View() == Next(old(View()), Exit(worker)) && job == []
      ensures job + bgQueue == old(bgQueue) && (worker in alive <==> job != [])
    {
      if bgQueue != [] {
        job := bgQueue[..1];
        bgQueue := bgQueue[1..];
      } else {
        job := [];
        alive := alive - {worker};
        done := done + {worker};
      }
    }
  }
}
