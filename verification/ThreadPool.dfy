/**
 * The worker pool: the locked regions as methods of the object, and the pool with its threads as a
 * step system over every interleaving of submitters, workers and the destructor.
 */
module ThreadPool {
  /** A task stands for the function object that was submitted: never empty, and it does not throw. */
  type Task = int

  datatype Pool = Pool(tasks: seq<Task>, stop: bool, submitted: nat, completed: nat, peak: nat)

  function Max(a: nat, b: nat): (m: nat)
    ensures m >= a && m >= b && (m == a || m == b)
  {
    if a > b then a else b
  }

  function Submitted(p: Pool, t: Task): Pool {
    p.(tasks := p.tasks + [t], submitted := p.submitted + 1, peak := Max(|p.tasks| + 1, p.peak))
  }

  /** What the condition variable lets through. */
  predicate MayPass(p: Pool) {
    p.stop || p.tasks != []
  }

  // ---------------------------------------------------------------- the object

  class ThreadPool {
    var tasks: seq<Task>
    var stop: bool
    var submitted: nat
    var completed: nat
    var queuePeak: nat

    ghost function View(): Pool
      reads this
    {
      Pool(tasks, stop, submitted, completed, queuePeak)
    }

    constructor ()
      ensures View() == Pool([], false, 0, 0, 0)
    {
      tasks, stop, submitted, completed, queuePeak := [], false, 0, 0, 0;
    }

    method Submit(t: Task)
      modifies this
      ensures View() == Submitted(old(View()), t)
    {
      tasks := tasks + [t];
      submitted := submitted + 1;
      RaisePeak(|tasks|);
    }

    /** A weak compare-and-swap may fail for no reason, any number of times. */
    method RaisePeak(cur: nat)
      modifies this`queuePeak
      ensures queuePeak == Max(cur, old(queuePeak))
    {
      var spurious: nat := *;
      var oldPeak := queuePeak;
      var done := false;
      while cur > oldPeak && !done
        invariant done ==> cur > old(queuePeak) && queuePeak == cur
        invariant !done ==> oldPeak == queuePeak == old(queuePeak)
        decreases !done, spurious
      {
        if spurious > 0 {
          spurious := spurious - 1;
          oldPeak := queuePeak;
        } else {
          queuePeak := cur;
          done := true;
        }
      }
    }

    /** The locked part of the worker loop; no task means that the worker leaves. */
    method Take() returns (leave: bool, t: Task)
      requires MayPass(View())
      modifies this`tasks
      ensures leave <==> old(stop && tasks == [])
      ensures leave ==> View() == old(View())
      ensures !leave ==> t == old(tasks)[0] && View() == old(View()).(tasks := old(tasks)[1..])
    {
      t := 0;
      if stop && tasks == [] {
        return true, t;
      }
      leave, t := false, tasks[0];
      tasks := tasks[1..];
    }

    method Complete()
      modifies this`completed
      ensures View() == old(View()).(completed := old(completed) + 1)
    {
      completed := completed + 1;
    }

    method Stop()
      modifies this`stop
      ensures View() == old(View()).(stop := true)
    {
      stop := true;
    }
  }

  // ---------------------------------------------------------------- the pool with its threads

  /** A worker waits, runs the task with this ticket, has run it and not counted it yet, or is gone. */
  datatype Worker = Waiting | Running(ticket: nat) | Ran(ticket: nat) | Gone

  /**
   * `order` lists the tasks in submission order, so that a ticket names one submission; `taken` counts
   * those handed to workers, `runs` lists the tickets in the order their tasks were run, `lengths`
   * the queue lengths right after each submission.
   */
  datatype System = System(pool: Pool, workers: seq<Worker>, order: seq<Task>, taken: nat, runs: seq<nat>, lengths: seq<nat>)

  datatype Action =
    | SubmitFromOutside(task: Task)
    | SubmitFromTask(worker: nat, task: Task)
    | TakeOrLeave(worker: nat)
    | RunTask(worker: nat)
    | CountTask(worker: nat)
    | RaiseStop

  function Start(workerCount: nat): System {
    System(Pool([], false, 0, 0, 0), seq(if workerCount == 0 then 1 else workerCount, _ => Waiting), [], 0, [], [])
  }

  function Submission(s: System, t: Task): System {
    s.(pool := Submitted(s.pool, t), order := s.order + [t], lengths := s.lengths + [|s.pool.tasks| + 1])
  }

  /** Submitters outside the pool stop before the destructor runs. */
  predicate Enabled(s: System, a: Action) {
    match a
    case SubmitFromOutside(_) => !s.pool.stop
    case SubmitFromTask(w, _) => w < |s.workers| && s.workers[w].Running?
    case TakeOrLeave(w) => w < |s.workers| && s.workers[w].Waiting? && MayPass(s.pool)
    case RunTask(w) => w < |s.workers| && s.workers[w].Running?
    case CountTask(w) => w < |s.workers| && s.workers[w].Ran?
    case RaiseStop => true
  }

  function Next(s: System, a: Action): System
    requires Enabled(s, a)
  {
    match a
    case SubmitFromOutside(t) => Submission(s, t)
    case SubmitFromTask(_, t) => Submission(s, t)
    case TakeOrLeave(w) =>
      if s.pool.stop && s.pool.tasks == [] then s.(workers := s.workers[w := Gone])
      else s.(pool := s.pool.(tasks := s.pool.tasks[1..]), workers := s.workers[w := Running(s.taken)], taken := s.taken + 1)
    case RunTask(w) => s.(workers := s.workers[w := Ran(s.workers[w].ticket)], runs := s.runs + [s.workers[w].ticket])
    case CountTask(w) => s.(workers := s.workers[w := Waiting], pool := s.pool.(completed := s.pool.completed + 1))
    case RaiseStop => s.(pool := s.pool.(stop := true))
  }

  ghost predicate Run(workerCount: nat, states: seq<System>, actions: seq<Action>) {
    && |states| == |actions| + 1 && states[0] == Start(workerCount)
    && forall i :: 0 <= i < |actions| ==> Enabled(states[i], actions[i]) && states[i + 1] == Next(states[i], actions[i])
  }

  /** The destructor has joined every worker. */
  predicate Joined(s: System) {
    forall w :: 0 <= w < |s.workers| ==> s.workers[w].Gone?
  }

  // ---------------------------------------------------------------- counting

  /** Tasks taken and not yet counted as completed. */
  function InFlight(workers: seq<Worker>): nat {
    if workers == [] then 0
    else InFlight(workers[1..]) + if workers[0].Running? || workers[0].Ran? then 1 else 0
  }

  /** Workers that have yet to run the task with ticket `k`. */
  function Holding(workers: seq<Worker>, k: nat): nat {
    if workers == [] then 0 else Holding(workers[1..], k) + if workers[0] == Running(k) then 1 else 0
  }

  function Occurrences(runs: seq<nat>, k: nat): nat {
    if runs == [] then 0 else Occurrences(runs[..|runs| - 1], k) + if runs[|runs| - 1] == k then 1 else 0
  }

  function Longest(lengths: seq<nat>): nat {
    if lengths == [] then 0 else Max(lengths[|lengths| - 1], Longest(lengths[..|lengths| - 1]))
  }

  function Busy(w: Worker): nat {
    if w.Running? || w.Ran? then 1 else 0
  }

  function Holds(w: Worker, k: nat): nat {
    if w == Running(k) then 1 else 0
  }

  lemma {:induction false} ReplaceInFlight(workers: seq<Worker>, w: nat, x: Worker)
    requires w < |workers|
    ensures InFlight(workers[w := x]) + Busy(workers[w]) == InFlight(workers) + Busy(x)
  {
    if w == 0 {
      assert workers[0 := x][1..] == workers[1..];
    } else {
      ReplaceInFlight(workers[1..], w - 1, x);
      assert workers[w := x][1..] == workers[1..][w - 1 := x];
    }
  }

  lemma {:induction false} ReplaceHolding(workers: seq<Worker>, w: nat, x: Worker, k: nat)
    requires w < |workers|
    ensures Holding(workers[w := x], k) + Holds(workers[w], k) == Holding(workers, k) + Holds(x, k)
  {
    if w == 0 {
      assert workers[0 := x][1..] == workers[1..];
    } else {
      ReplaceHolding(workers[1..], w - 1, x, k);
      assert workers[w := x][1..] == workers[1..][w - 1 := x];
    }
  }

  lemma {:induction false} NoneInFlight(workers: seq<Worker>)
    requires forall w :: 0 <= w < |workers| ==> workers[w].Gone? || workers[w].Waiting?
    ensures InFlight(workers) == 0
  {
    if workers != [] {
      NoneInFlight(workers[1..]);
    }
  }

  lemma {:induction false} NoneHolding(workers: seq<Worker>, k: nat)
    requires forall w :: 0 <= w < |workers| ==> !workers[w].Running?
    ensures Holding(workers, k) == 0
  {
    if workers != [] {
      NoneHolding(workers[1..], k);
    }
  }

  /** `Longest` is a maximum: an upper bound, and attained. */
  lemma {:induction false} LongestIsMaximum(lengths: seq<nat>)
    ensures forall i :: 0 <= i < |lengths| ==> lengths[i] <= Longest(lengths)
    ensures lengths != [] ==> Longest(lengths) in lengths
  {
    if lengths != [] {
      var shorter := lengths[..|lengths| - 1];
      LongestIsMaximum(shorter);
      assert lengths == shorter + [lengths[|lengths| - 1]];
    }
  }

  // ---------------------------------------------------------------- the invariant

  /** Every submission with a ticket below `taken` was run once or is about to be, and no other was. */
  ghost predicate RunOnce(s: System) {
    forall k: nat :: Occurrences(s.runs, k) + Holding(s.workers, k) == if k < s.taken then 1 else 0
  }

  ghost predicate Inv(s: System) {
    && s.workers != []
    && s.taken <= |s.order| && s.pool.tasks == s.order[s.taken..]
    && s.pool.submitted == |s.order|
    && s.taken == InFlight(s.workers) + s.pool.completed
    && s.pool.peak == Longest(s.lengths)
    && |s.lengths| == |s.order|
    && (forall w :: 0 <= w < |s.workers| && s.workers[w].Gone? ==> s.pool.stop)
    && (Joined(s) ==> s.pool.tasks == [])
    && RunOnce(s)
  }

  lemma OccurrencesOfOneMore(runs: seq<nat>, k: nat, j: nat)
    ensures Occurrences(runs + [k], j) == Occurrences(runs, j) + if j == k then 1 else 0
  {
    assert (runs + [k])[..|runs|] == runs;
  }

  lemma SubmissionKeepsInv(s: System, t: Task)
    requires Inv(s) && !Joined(s)
    ensures Inv(Submission(s, t))
  {
    var s' := Submission(s, t);
    assert s'.lengths[..|s.lengths|] == s.lengths;
    assert s'.order[s.taken..] == s.order[s.taken..] + [t];
  }

  lemma RunOnceAfter(s: System, s': System, w: nat, x: Worker)
    requires RunOnce(s) && w < |s.workers| && s'.workers == s.workers[w := x]
    requires forall k: nat ::
      Occurrences(s'.runs, k) + Holds(x, k) - (if k < s'.taken then 1 else 0)
      == Occurrences(s.runs, k) + Holds(s.workers[w], k) - (if k < s.taken then 1 else 0)
    ensures RunOnce(s')
  {
    forall k: nat
      ensures Occurrences(s'.runs, k) + Holding(s'.workers, k) == if k < s'.taken then 1 else 0
    {
      ReplaceHolding(s.workers, w, x, k);
    }
  }

  lemma WorkerStepKeepsInv(s: System, a: Action)
    requires Inv(s) && Enabled(s, a) && (a.TakeOrLeave? || a.RunTask? || a.CountTask?)
    ensures Inv(Next(s, a))
  {
    var s', w := Next(s, a), a.worker;
    ReplaceInFlight(s.workers, w, s'.workers[w]);
    assert s'.workers == s.workers[w := s'.workers[w]];
    if a.RunTask? {
      forall k: nat
        ensures Occurrences(s'.runs, k) == Occurrences(s.runs, k) + if k == s.workers[w].ticket then 1 else 0
      {
        OccurrencesOfOneMore(s.runs, s.workers[w].ticket, k);
      }
    }
    RunOnceAfter(s, s', w, s'.workers[w]);
    assert !s'.workers[w].Gone? ==> !Joined(s');
  }

  lemma NextKeepsInv(s: System, a: Action)
    requires Inv(s) && Enabled(s, a)
    ensures Inv(Next(s, a))
  {
    match a
    case SubmitFromOutside(t) =>
      assert s.workers[0].Gone? ==> s.pool.stop;
      SubmissionKeepsInv(s, t);
    case SubmitFromTask(w, t) =>
      assert !s.workers[w].Gone?;
      SubmissionKeepsInv(s, t);
    case RaiseStop =>
    case _ => WorkerStepKeepsInv(s, a);
  }

  lemma StartInv(workerCount: nat)
    ensures Inv(Start(workerCount))
  {
    var s := Start(workerCount);
    NoneInFlight(s.workers);
    forall k: nat
      ensures Occurrences(s.runs, k) + Holding(s.workers, k) == 0
    {
      NoneHolding(s.workers, k);
    }
    assert s.workers[0].Waiting?;
  }

  lemma {:induction false} RunKeepsInv(workerCount: nat, states: seq<System>, actions: seq<Action>, n: nat)
    requires Run(workerCount, states, actions) && n < |states|
    ensures Inv(states[n])
    decreases n
  {
    if n == 0 {
      StartInv(workerCount);
    } else {
      RunKeepsInv(workerCount, states, actions, n - 1);
      NextKeepsInv(states[n - 1], actions[n - 1]);
    }
  }

  // ---------------------------------------------------------------- what every run keeps

  /** Nothing is lost: every submission is queued, in flight or completed; the queue is in submission order. */
  lemma TasksConserved(workerCount: nat, states: seq<System>, actions: seq<Action>, n: nat)
    requires Run(workerCount, states, actions) && n < |states|
    ensures
      var s := states[n];
      && s.pool.submitted == |s.pool.tasks| + InFlight(s.workers) + s.pool.completed == |s.order|
      && s.taken <= |s.order| && s.pool.tasks == s.order[s.taken..]
  {
    RunKeepsInv(workerCount, states, actions, n);
  }

  /** Tickets are handed out one by one, in submission order. */
  lemma TakenInOrder(workerCount: nat, states: seq<System>, actions: seq<Action>, n: nat)
    requires Run(workerCount, states, actions) && n < |actions| && actions[n].TakeOrLeave?
    requires states[n + 1].workers[actions[n].worker].Running?
    ensures states[n + 1].workers[actions[n].worker].ticket == states[n].taken < |states[n].order|
    ensures states[n].pool.tasks[0] == states[n].order[states[n].taken]
  {
    RunKeepsInv(workerCount, states, actions, n);
  }

  /** No task runs twice, and none that was not taken runs. */
  lemma NoTaskTwice(workerCount: nat, states: seq<System>, actions: seq<Action>, n: nat, k: nat)
    requires Run(workerCount, states, actions) && n < |states|
    ensures Occurrences(states[n].runs, k) <= if k < states[n].taken then 1 else 0
  {
    RunKeepsInv(workerCount, states, actions, n);
  }

  /** The recorded peak is the greatest length the queue had after any submission. */
  lemma PeakIsMaximum(workerCount: nat, states: seq<System>, actions: seq<Action>, n: nat)
    requires Run(workerCount, states, actions) && n < |states|
    ensures forall i :: 0 <= i < |states[n].lengths| ==> states[n].lengths[i] <= states[n].pool.peak
    ensures states[n].lengths != [] ==> states[n].pool.peak in states[n].lengths
  {
    RunKeepsInv(workerCount, states, actions, n);
    LongestIsMaximum(states[n].lengths);
  }

  /** When the destructor returns, the queue is empty and every submitted task has run exactly once. */
  lemma DestructorDrains(workerCount: nat, states: seq<System>, actions: seq<Action>, n: nat)
    requires Run(workerCount, states, actions) && n < |states| && Joined(states[n])
    ensures states[n].pool.tasks == [] && states[n].pool.completed == states[n].pool.submitted
    ensures forall k: nat :: Occurrences(states[n].runs, k) == if k < states[n].pool.submitted then 1 else 0
  {
    RunKeepsInv(workerCount, states, actions, n);
    var s := states[n];
    NoneInFlight(s.workers);
    forall k: nat
      ensures Holding(s.workers, k) == 0
    {
      NoneHolding(s.workers, k);
    }
    assert |s.order[s.taken..]| == |s.order| - s.taken;
  }

  // ---------------------------------------------------------------- the workers get on

  /** At least one worker, however few were asked for. */
  lemma {:induction false} WorkersStay(workerCount: nat, states: seq<System>, actions: seq<Action>, n: nat)
    requires Run(workerCount, states, actions) && n < |states|
    ensures workerCount == 0 ==> |states[n].workers| == 1
    ensures workerCount > 0 ==> |states[n].workers| == workerCount
    decreases n
  {
    if n > 0 {
      WorkersStay(workerCount, states, actions, n - 1);
    }
  }

  /** A waiting worker may go on exactly when there is a task or the pool is stopped: with the oldest task, or for good. */
  lemma WaitingMayGo(s: System, w: nat)
    requires w < |s.workers| && s.workers[w].Waiting?
    ensures Enabled(s, TakeOrLeave(w)) <==> s.pool.tasks != [] || s.pool.stop
    ensures s.pool.tasks != [] ==>
      var s' := Next(s, TakeOrLeave(w));
      s'.workers[w] == Running(s.taken) && s'.pool.tasks == s.pool.tasks[1..] && s'.taken == s.taken + 1
    ensures s.pool.tasks == [] && s.pool.stop ==> Next(s, TakeOrLeave(w)).workers[w] == Gone
  {
  }

  /** What a worker still has to do, at most. */
  function Effort(w: Worker): nat {
    match w
    case Waiting => 1
    case Running(_) => 3
    case Ran(_) => 2
    case Gone => 0
  }

  function Efforts(workers: seq<Worker>): nat {
    if workers == [] then 0 else Effort(workers[0]) + Efforts(workers[1..])
  }

  function Left(s: System): nat {
    4 * |s.pool.tasks| + Efforts(s.workers)
  }

  lemma {:induction false} ReplaceEffort(workers: seq<Worker>, w: nat, x: Worker)
    requires w < |workers|
    ensures Efforts(workers[w := x]) + Effort(workers[w]) == Efforts(workers) + Effort(x)
  {
    if w == 0 {
      assert workers[0 := x][1..] == workers[1..];
    } else {
      ReplaceEffort(workers[1..], w - 1, x);
      assert workers[w := x][1..] == workers[1..][w - 1 := x];
    }
  }

  predicate OfWorker(a: Action) {
    a.TakeOrLeave? || a.RunTask? || a.CountTask?
  }

  lemma WorkerStepUsesUp(s: System, a: Action)
    requires Enabled(s, a) && OfWorker(a)
    ensures Left(Next(s, a)) < Left(s) && Next(s, a).pool.stop == s.pool.stop
  {
    var s' := Next(s, a);
    ReplaceEffort(s.workers, a.worker, s'.workers[a.worker]);
    assert s'.workers == s.workers[a.worker := s'.workers[a.worker]];
  }

  /** Once stopped, some worker can always go on until all have left. */
  lemma SomeWorkerGoesOn(s: System) returns (a: Action)
    requires s.pool.stop && !Joined(s)
    ensures Enabled(s, a) && OfWorker(a)
  {
    var w :| 0 <= w < |s.workers| && !s.workers[w].Gone?;
    a := if s.workers[w].Waiting? then TakeOrLeave(w) else if s.workers[w].Running? then RunTask(w) else CountTask(w);
  }

  ghost predicate Path(states: seq<System>, actions: seq<Action>) {
    && |states| == |actions| + 1
    && forall i :: 0 <= i < |actions| ==>
         Enabled(states[i], actions[i]) && OfWorker(actions[i]) && states[i + 1] == Next(states[i], actions[i])
  }

  /** No matter how they are scheduled, the workers of a pool that takes no more tasks make only so many steps. */
  lemma {:induction false} WorkersComeToRest(states: seq<System>, actions: seq<Action>)
    requires Path(states, actions)
    ensures |actions| + Left(states[|actions|]) <= Left(states[0])
    decreases |actions|
  {
    if actions != [] {
      var last := |actions| - 1;
      WorkersComeToRest(states[..last + 1], actions[..last]);
      WorkerStepUsesUp(states[last], actions[last]);
    }
  }

  /** The destructor returns: from any stopped state the workers can all leave. */
  lemma {:induction false} DestructorReturns(s: System) returns (states: seq<System>, actions: seq<Action>)
    requires s.pool.stop
    ensures Path(states, actions) && states[0] == s && Joined(states[|actions|])
    decreases Left(s)
  {
    if Joined(s) {
      states, actions := [s], [];
    } else {
      var a := SomeWorkerGoesOn(s);
      WorkerStepUsesUp(s, a);
      hide Joined, Enabled, Next;
      var more, then_ := DestructorReturns(Next(s, a));
      states, actions := [s] + more, [a] + then_;
    }
  }
}
