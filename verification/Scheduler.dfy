/** The worker loop `Scheduler::run` as a protocol of steps over a shared queue.

    A block under the scheduler's mutex is one step, and between the blocks each access to
    the state of a fiber or to the active count is one: the tests before `swapIn` and in it, its
    write, a fiber's write of its own state, the switch back, the decrement, and what the
    worker then reads and writes. */
module Scheduling {

  type Fiber = nat
  type Thread = int

  datatype Task = Resume(fiber: Fiber) | Callback

  /** A queue entry; `ticket` numbers the calls of `scheduleLock`.  Thread -1
      means any thread. */
  datatype Entry = Entry(task: Task, thread: Thread, ticket: nat)

  datatype FiberState = Ready | Holding | Execute | Terminate | Exception

  /** Where a worker is in the loop of `run`. */
  datatype Worker =
    | Scan                          // at the top of the loop
    | Taken(task: Task)             // has an entry, the active count incremented
    | Live(fiber: Fiber)            // found the fiber not over
    | Entering(fiber: Fiber)        // found it not in state Execute, about to write that
    | Running(fiber: Fiber)         // between the switch and the fiber's write of its state
    | Yielded(fiber: Fiber)         // state written, the context not yet saved
    | Back(fiber: Fiber)            // switched back, the active count not yet decremented
    | Discard                       // took a fiber that is already over
    | Settle(fiber: Fiber)          // decremented, about to look at the state
    | Requeue(fiber: Fiber)         // found it ready, not yet queued
    | Hold(fiber: Fiber)            // found it neither ready nor over, about to write Holding
    | Idle                          // in the idle fiber, about to test stopping()
    | Exited

  datatype Taking = Taking(entry: Entry, worker: Thread)

  datatype State = State(
    queue: seq<Entry>,
    fibers: map<Fiber, FiberState>,
    workers: map<Thread, Worker>,
    idleOver: set<Thread>,          // workers whose idle fiber has terminated
    active: int,
    stopping: bool,                 // _autoStop and _stopping
    taken: map<nat, Taking>,        // which worker took which ticket
    nextTicket: nat,
    nextFiber: nat,
    failed: bool)                   // an assertion failed and the program ended

  // ------------------------------------------------------------ the queue

  /** An entry that the worker of `thread` must leave in the queue. */
  predicate Skipped(fibers: map<Fiber, FiberState>, e: Entry, thread: Thread) {
    || (e.thread != -1 && e.thread != thread)
    || (e.task.Resume? && e.task.fiber in fibers && fibers[e.task.fiber].Execute?)
  }

  /** Entry `k` is the one the scan of `thread` stops at. */
  predicate FirstFit(fibers: map<Fiber, FiberState>, queue: seq<Entry>, thread: Thread, k: nat) {
    && k < |queue| && !Skipped(fibers, queue[k], thread)
    && (forall i :: 0 <= i < k ==> Skipped(fibers, queue[i], thread))
  }

  predicate NothingFits(fibers: map<Fiber, FiberState>, queue: seq<Entry>, thread: Thread) {
    forall i :: 0 <= i < |queue| ==> Skipped(fibers, queue[i], thread)
  }

  function Without(queue: seq<Entry>, k: nat): (q: seq<Entry>)
    requires k < |queue|
    ensures |q| == |queue| - 1
    ensures forall i :: 0 <= i < |q| ==> q[i] == queue[if i < k then i else i + 1]
  {
    queue[..k] + queue[k + 1..]
  }

  /** The scan under the lock at the top of `run`: what is taken, what stays and
      whether other workers have to be woken. */
  method TakeEntry(fibers: map<Fiber, FiberState>, queue: seq<Entry>, thread: Thread)
    returns (found: bool, k: nat, rest: seq<Entry>, tickleMe: bool)
    ensures found ==> FirstFit(fibers, queue, thread, k) && rest == Without(queue, k)
    ensures !found ==> NothingFits(fibers, queue, thread) && rest == queue
    ensures tickleMe <==>
      || (exists i :: 0 <= i < (if found then k else |queue|) && queue[i].thread != -1 && queue[i].thread != thread)
      || (found && k + 1 < |queue|)
  {
    k, tickleMe := 0, false;
    while k < |queue|
      invariant k <= |queue|
      invariant forall i :: 0 <= i < k ==> Skipped(fibers, queue[i], thread)
      invariant tickleMe <==> exists i :: 0 <= i < k && queue[i].thread != -1 && queue[i].thread != thread
    {
      var e := queue[k];
      if e.thread != -1 && e.thread != thread {
        tickleMe := true;
        k := k + 1;
        continue;
      }
      if e.task.Resume? && e.task.fiber in fibers && fibers[e.task.fiber].Execute? {
        k := k + 1;
        continue;
      }
      rest := Without(queue, k);
      tickleMe := tickleMe || k < |rest|;
      return true, k, rest, tickleMe;
    }
    return false, k, queue, tickleMe;
  }

  /** The batch form of `schedule`: everything is appended in order, and a wake-up
      is needed exactly when something was put into an empty queue. */
  method ScheduleAll(queue: seq<Entry>, batch: seq<Entry>) returns (q: seq<Entry>, needTickle: bool)
    ensures q == queue + batch
    ensures needTickle <==> queue == [] && batch != []
  {
    q, needTickle := queue, false;
    for i := 0 to |batch|
      invariant q == queue + batch[..i]
      invariant needTickle <==> queue == [] && i > 0
    {
      needTickle := needTickle || q == [];
      q := q + [batch[i]];
    }
  }

  // ------------------------------------------------------------- the steps

  datatype Step =
    | Schedule(task: Task, thread: Thread)         // from outside the workers
    | ScheduleBy(w: Thread, task: Task, thread: Thread)   // by what worker w runs
    | Take(w: Thread, k: nat)
    | NoTask(w: Thread)
    | Check(w: Thread)
    | Test(w: Thread)
    | SwitchIn(w: Thread)
    | Yield(w: Thread, to: FiberState)
    | SwapOut(w: Thread)
    | Decrement(w: Thread)
    | Look(w: Thread)
    | RequeueReady(w: Thread)
    | WriteHolding(w: Thread)
    | TestStopping(w: Thread)
    | Stop

  function Push(s: State, task: Task, thread: Thread): (r: State) {
    s.(queue := s.queue + [Entry(task, thread, s.nextTicket)], nextTicket := s.nextTicket + 1)
  }

  function SetWorker(s: State, w: Thread, p: Worker): (r: State) {
    s.(workers := s.workers[w := p])
  }

  predicate Over(f: FiberState) { f.Terminate? || f.Exception? }

  /** `Scheduler::stopping` */
  predicate StoppingNow(s: State) { s.stopping && s.queue == [] && s.active == 0 }

  predicate At(s: State, w: Thread) { w in s.workers }

  predicate Enabled(s: State, step: Step) {
    !s.failed &&
    match step
    case Schedule(task, _) => task.Resume? ==> task.fiber in s.fibers
    case ScheduleBy(w, task, _) => At(s, w) && s.workers[w].Running? && (task.Resume? ==> task.fiber in s.fibers)
    case Take(w, k) => At(s, w) && s.workers[w].Scan? && FirstFit(s.fibers, s.queue, w, k)
    case NoTask(w) => At(s, w) && s.workers[w].Scan? && NothingFits(s.fibers, s.queue, w)
    case Check(w) => At(s, w) && s.workers[w].Taken?
    case Test(w) => At(s, w) && s.workers[w].Live?
    case SwitchIn(w) => At(s, w) && s.workers[w].Entering?
    case Yield(w, to) => At(s, w) && s.workers[w].Running? && !to.Execute?
    case SwapOut(w) => At(s, w) && s.workers[w].Yielded?
    case Decrement(w) => At(s, w) && (s.workers[w].Back? || s.workers[w].Discard?)
    case Look(w) => At(s, w) && s.workers[w].Settle?
    case RequeueReady(w) => At(s, w) && s.workers[w].Requeue?
    case WriteHolding(w) => At(s, w) && s.workers[w].Hold?
    case TestStopping(w) => At(s, w) && s.workers[w].Idle?
    case Stop => true
  }

  predicate Executes(s: State, f: Fiber) { f in s.fibers && s.fibers[f].Execute? }

  /** The scan takes entry `k`. */
  function DoTake(s: State, w: Thread, k: nat): (r: State)
    requires k < |s.queue|
  {
    var e := s.queue[k];
    SetWorker(s, w, Taken(e.task))
      .(queue := Without(s.queue, k), active := s.active + 1, taken := s.taken[e.ticket := Taking(e, w)])
  }

  function SetFiber(s: State, w: Thread, p: Worker, f: Fiber, to: FiberState): (r: State) {
    SetWorker(s, w, p).(fibers := s.fibers[f := to])
  }

  /** A fiber that is over is only discarded.  A callback gets a fresh fiber, which nobody
      else knows, and is switched to. */
  function DoCheck(s: State, w: Thread): (r: State)
    requires At(s, w) && s.workers[w].Taken?
  {
    match s.workers[w].task
    case Callback => SetFiber(s, w, Running(s.nextFiber), s.nextFiber, Execute).(nextFiber := s.nextFiber + 1)
    case Resume(f) => SetWorker(s, w, if f in s.fibers && Over(s.fibers[f]) then Discard else Live(f))
  }

  /** `swapIn` asserts that the fiber is not in state Execute. */
  function DoTest(s: State, w: Thread): (r: State)
    requires At(s, w) && s.workers[w].Live?
  {
    var f := s.workers[w].fiber;
    if Executes(s, f) then s.(failed := true) else SetWorker(s, w, Entering(f))
  }

  /** The fiber writes its state; `yieldToReady` and `yieldToHold` assert that it was Execute. */
  function DoYield(s: State, w: Thread, to: FiberState): (r: State)
    requires At(s, w) && s.workers[w].Running?
  {
    var f := s.workers[w].fiber;
    if !Over(to) && !Executes(s, f) then s.(failed := true) else SetFiber(s, w, Yielded(f), f, to)
  }

  function DoDecrement(s: State, w: Thread): (r: State)
    requires At(s, w)
  {
    var p := s.workers[w];
    SetWorker(s, w, if p.Back? then Settle(p.fiber) else Scan).(active := s.active - 1)
  }

  /** What the worker finds after the switch back. */
  function DoLook(s: State, w: Thread): (r: State)
    requires At(s, w) && s.workers[w].Settle?
  {
    var f := s.workers[w].fiber;
    SetWorker(s, w,
              if f !in s.fibers || Over(s.fibers[f]) then Scan
              else if s.fibers[f].Ready? then Requeue(f)
              else Hold(f))
  }

  function Next(s: State, step: Step): (r: State)
    requires Enabled(s, step)
  {
    match step
    case Schedule(task, thread) => Push(s, task, thread)
    case ScheduleBy(_, task, thread) => Push(s, task, thread)
    case Take(w, k) => DoTake(s, w, k)
    case NoTask(w) => SetWorker(s, w, if w in s.idleOver then Exited else Idle)
    case Check(w) => DoCheck(s, w)
    case Test(w) => DoTest(s, w)
    case SwitchIn(w) => SetFiber(s, w, Running(s.workers[w].fiber), s.workers[w].fiber, Execute)
    case Yield(w, to) => DoYield(s, w, to)
    case SwapOut(w) => SetWorker(s, w, Back(s.workers[w].fiber))
    case Decrement(w) => DoDecrement(s, w)
    case Look(w) => DoLook(s, w)
    case RequeueReady(w) => SetWorker(Push(s, Resume(s.workers[w].fiber), -1), w, Scan)
    case WriteHolding(w) => SetFiber(s, w, Scan, s.workers[w].fiber, Holding)
    case TestStopping(w) =>
      SetWorker(s, w, Scan).(idleOver := if StoppingNow(s) then s.idleOver + {w} else s.idleOver)
    case Stop => s.(stopping := true)
  }

  /** Any number of workers start at the top of the loop with an empty queue. */
  ghost predicate Initial(s: State) {
    && (exists w :: At(s, w)) && !s.stopping && !s.failed
    && s.queue == [] && s.idleOver == {} && s.active == 0 && s.taken == map[] && s.nextTicket == 0
    && (forall w :: w in s.workers ==> s.workers[w].Scan? && w != -1)
    && (forall f :: f in s.fibers ==> !s.fibers[f].Execute? && f < s.nextFiber)
  }

  ghost predicate IsRun(states: seq<State>, steps: seq<Step>) {
    && |states| == |steps| + 1 && Initial(states[0])
    && forall i :: 0 <= i < |steps| ==> Enabled(states[i], steps[i]) && states[i + 1] == Next(states[i], steps[i])
  }

  // ------------------------------------------------------------ invariants

  /** Between the increment at the take and its matching decrement. */
  predicate IsActive(p: Worker) {
    p.Taken? || p.Live? || p.Entering? || p.Running? || p.Yielded? || p.Discard? || p.Back?
  }

  ghost function ActiveWorkers(s: State): (a: set<Thread>) {
    set w | w in s.workers && IsActive(s.workers[w])
  }

  ghost predicate Counted(s: State) { s.active == |ActiveWorkers(s)| }

  predicate Runs(s: State, w: Thread, f: Fiber) {
    w in s.workers && s.workers[w].Running? && s.workers[w].fiber == f
  }

  /** A fiber in state Execute is run by some worker. */
  ghost predicate ExecuteIsRun(s: State) {
    forall f :: Executes(s, f) ==> exists w :: Runs(s, w, f)
  }

  /** The fiber that a worker has to do with, if any. */
  predicate Concerns(p: Worker, f: Fiber) {
    match p
    case Taken(task) => task == Resume(f)
    case Live(g) => g == f
    case Entering(g) => g == f
    case Running(g) => g == f
    case Yielded(g) => g == f
    case Back(g) => g == f
    case Settle(g) => g == f
    case Requeue(g) => g == f
    case Hold(g) => g == f
    case _ => false
  }

  /** Only fibers that exist are referred to. */
  ghost predicate Known(s: State) {
    && (forall f :: f in s.fibers ==> f < s.nextFiber)
    && (forall w, f :: w in s.workers && Concerns(s.workers[w], f) ==> f in s.fibers)
    && (forall i :: 0 <= i < |s.queue| && s.queue[i].task.Resume? ==> s.queue[i].task.fiber in s.fibers)
  }

  /** Every ticket is either queued once or was taken once, by a worker that may take it. */
  ghost predicate Ticketed(s: State) {
    && (forall i :: 0 <= i < |s.queue| ==> s.queue[i].ticket < s.nextTicket && s.queue[i].ticket !in s.taken)
    && (forall i, j :: 0 <= i < j < |s.queue| ==> s.queue[i].ticket != s.queue[j].ticket)
    && (forall t :: t in s.taken ==> t < s.nextTicket && s.taken[t].entry.ticket == t)
    && (forall t :: t in s.taken ==> s.taken[t].entry.thread == -1 || s.taken[t].entry.thread == s.taken[t].worker)
    && (forall t: nat :: t < s.nextTicket ==> t in s.taken || InQueue(s.queue, t))
  }

  ghost predicate InQueue(queue: seq<Entry>, ticket: nat) {
    exists i :: 0 <= i < |queue| && queue[i].ticket == ticket
  }

  /** A worker's idle fiber ends, and the worker leaves, only when stopping. */
  ghost predicate LeavesWhenStopping(s: State) {
    forall w :: w in s.idleOver || (w in s.workers && s.workers[w].Exited?) ==> s.stopping
  }

  ghost predicate AllExited(s: State) {
    forall w :: w in s.workers ==> s.workers[w].Exited?
  }

  /** Once every worker has left, what is still queued is pinned to a thread. */
  ghost predicate Drained(s: State) {
    AllExited(s) ==> forall i :: 0 <= i < |s.queue| ==> s.queue[i].thread != -1
  }

  ghost predicate Inv(s: State) {
    Counted(s) && ExecuteIsRun(s) && Known(s) && Ticketed(s) && LeavesWhenStopping(s) && (exists w :: At(s, w))
  }

  lemma InitialInv(s: State)
    requires Initial(s)
    ensures Inv(s) && Drained(s)
  {
    assert forall w :: w in s.workers ==> !IsActive(s.workers[w]);
    var w :| At(s, w);
  }

  // ------------------------------------------------------- preservation, one predicate at a time

  /** One worker moves; the active count follows if it enters or leaves the active part. */
  lemma CountedMove(s: State, t: State, w: Thread, p: Worker)
    requires Counted(s) && w in s.workers && t.workers == s.workers[w := p]
    requires t.active - s.active == (if IsActive(p) then 1 else 0) - (if IsActive(s.workers[w]) then 1 else 0)
    ensures Counted(t)
  {
    var rest := ActiveWorkers(s) - {w};
    assert ActiveWorkers(s) == if IsActive(s.workers[w]) then rest + {w} else rest;
    assert ActiveWorkers(t) == if IsActive(p) then rest + {w} else rest;
  }

  /** A step of a worker changes its own phase only, and the count as the phase says. */
  lemma WorkerMoves(s: State, step: Step)
    requires Enabled(s, step) && !step.Schedule? && !step.ScheduleBy? && !step.Stop?
    ensures var t := Next(s, step);
      && step.w in s.workers && step.w in t.workers && t.workers == s.workers[step.w := t.workers[step.w]]
      && t.active - s.active ==
         (if IsActive(t.workers[step.w]) then 1 else 0) - (if IsActive(s.workers[step.w]) then 1 else 0)
  {}

  lemma CountedStep(s: State, step: Step)
    requires Counted(s) && Enabled(s, step)
    ensures Counted(Next(s, step))
  {
    hide Counted, IsActive;
    var t := Next(s, step);
    match step {
      case Schedule(_, _) => CountedSame(s, t);
      case ScheduleBy(_, _, _) => CountedSame(s, t);
      case Stop => CountedSame(s, t);
      case _ =>
        WorkerMoves(s, step);
        CountedMove(s, t, step.w, t.workers[step.w]);
    }
  }

  lemma CountedSame(s: State, t: State)
    requires Counted(s) && t.workers == s.workers && t.active == s.active
    ensures Counted(t)
  {
    assert ActiveWorkers(t) == ActiveWorkers(s);
  }

  /** A worker moves, and the states of fibers change at most where nobody runs one in state
      Execute any more, or a new runner appears. */
  lemma ExecuteStep(s: State, step: Step)
    requires ExecuteIsRun(s) && Enabled(s, step)
    ensures ExecuteIsRun(Next(s, step))
  {
    var t := Next(s, step);
    forall f | Executes(t, f)
      ensures exists w :: Runs(t, w, f)
    {
      if (step.SwitchIn? || step.Check?) && t.workers[step.w] == Running(f) {
        assert Runs(t, step.w, f);
      } else {
        StillExecutes(s, step, f);
        var w :| Runs(s, w, f);
        StillRuns(s, step, w, f);
      }
    }
  }

  lemma StillExecutes(s: State, step: Step, f: Fiber)
    requires Enabled(s, step) && Executes(Next(s, step), f)
    requires step.SwitchIn? || step.Check? ==> Next(s, step).workers[step.w] != Running(f)
    ensures Executes(s, f)
  {}

  /** Who runs a fiber goes on, unless it writes the fiber's state. */
  lemma StillRuns(s: State, step: Step, w: Thread, f: Fiber)
    requires Enabled(s, step) && Runs(s, w, f)
    ensures Runs(Next(s, step), w, f) || (step.Yield? && step.w == w && !Executes(Next(s, step), f))
  {}

  lemma KnownStep(s: State, step: Step)
    requires Known(s) && Enabled(s, step)
    ensures Known(Next(s, step))
  {
    var t := Next(s, step);
    FibersStay(s, step);
    forall w, f | w in t.workers && Concerns(t.workers[w], f)
      ensures f in t.fibers
    {
      ConcernsKnown(s, step, w, f);
    }
    if step.Take? {
      assert forall i :: 0 <= i < |t.queue| ==> t.queue[i] == s.queue[if i < step.k then i else i + 1];
    } else {
      QueueKnown(s, step);
    }
  }

  lemma FibersStay(s: State, step: Step)
    requires Known(s) && Enabled(s, step)
    ensures forall f :: f in s.fibers ==> f in Next(s, step).fibers
    ensures forall f :: f in Next(s, step).fibers ==> f < Next(s, step).nextFiber
  {
    var t := Next(s, step);
    match step {
      case Yield(w, _) =>
        assert Concerns(s.workers[w], s.workers[w].fiber);
        assert t.fibers.Keys == s.fibers.Keys;
      case WriteHolding(w) =>
        assert Concerns(s.workers[w], s.workers[w].fiber);
        assert t.fibers.Keys == s.fibers.Keys;
      case SwitchIn(w) =>
        assert Concerns(s.workers[w], s.workers[w].fiber);
        assert t.fibers.Keys == s.fibers.Keys;
      case Check(w) =>
        if s.workers[w].task.Callback? {
          assert t.fibers.Keys == s.fibers.Keys + {s.nextFiber};
        }
      case _ =>
        assert t.fibers == s.fibers;
    }
  }

  lemma ConcernsKnown(s: State, step: Step, w: Thread, f: Fiber)
    requires Known(s) && Enabled(s, step)
    requires w in Next(s, step).workers && Concerns(Next(s, step).workers[w], f)
    ensures f in Next(s, step).fibers
  {
    FibersStay(s, step);
    ConcernsFrom(s, step, w, f);
  }

  /** A worker has to do with a fiber from the entry it takes or the fiber it makes. */
  lemma ConcernsFrom(s: State, step: Step, w: Thread, f: Fiber)
    requires Enabled(s, step) && w in Next(s, step).workers && Concerns(Next(s, step).workers[w], f)
    ensures || (w in s.workers && Concerns(s.workers[w], f))
            || (step.Take? && s.queue[step.k].task == Resume(f))
            || f in Next(s, step).fibers
  {}

  lemma QueueKnown(s: State, step: Step)
    requires Known(s) && Enabled(s, step) && !step.Take?
    ensures var t := Next(s, step);
      forall i :: 0 <= i < |t.queue| && t.queue[i].task.Resume? ==> t.queue[i].task.fiber in t.fibers
  {
    FibersStay(s, step);
    var t := Next(s, step);
    if step.RequeueReady? {
      assert Concerns(s.workers[step.w], s.workers[step.w].fiber);
    }
    assert forall i :: 0 <= i < |s.queue| ==> t.queue[i] == s.queue[i];
  }

  lemma TicketPushed(s: State, task: Task, thread: Thread)
    requires Ticketed(s)
    ensures Ticketed(Push(s, task, thread))
  {
    var t := Push(s, task, thread);
    forall n: nat | n < t.nextTicket ensures n in t.taken || InQueue(t.queue, n) {
      if n == s.nextTicket {
        assert t.queue[|s.queue|].ticket == n;
      } else if n !in s.taken {
        var i :| 0 <= i < |s.queue| && s.queue[i].ticket == n;
        assert t.queue[i].ticket == n;
      }
    }
  }

  lemma TicketTaken(s: State, t: State, w: Thread, k: nat)
    requires Ticketed(s) && k < |s.queue| && (s.queue[k].thread == -1 || s.queue[k].thread == w)
    requires t.queue == Without(s.queue, k) && t.nextTicket == s.nextTicket
    requires t.taken == s.taken[s.queue[k].ticket := Taking(s.queue[k], w)]
    ensures Ticketed(t)
  {
    forall n: nat | n < t.nextTicket ensures n in t.taken || InQueue(t.queue, n) {
      if n !in t.taken {
        var i :| 0 <= i < |s.queue| && s.queue[i].ticket == n;
        assert t.queue[if i < k then i else i - 1].ticket == n;
      }
    }
  }

  lemma TicketedStep(s: State, step: Step)
    requires Ticketed(s) && Enabled(s, step)
    ensures Ticketed(Next(s, step))
  {
    hide Ticketed;
    match step {
      case Take(w, k) => TicketTaken(s, DoTake(s, w, k), w, k);
      case RequeueReady(w) =>
        TicketPushed(s, Resume(s.workers[w].fiber), -1);
        TicketSame(Push(s, Resume(s.workers[w].fiber), -1), Next(s, step));
      case Schedule(task, thread) => TicketPushed(s, task, thread);
      case ScheduleBy(_, task, thread) => TicketPushed(s, task, thread);
      case _ => TicketSame(s, Next(s, step));
    }
  }

  lemma TicketSame(s: State, t: State)
    requires Ticketed(s) && t.queue == s.queue && t.taken == s.taken && t.nextTicket == s.nextTicket
    ensures Ticketed(t)
  {}

  lemma InvStep(s: State, step: Step)
    requires Inv(s) && Enabled(s, step)
    ensures Inv(Next(s, step))
  {
    hide Counted, ExecuteIsRun, Known, Ticketed, LeavesWhenStopping, Next, Enabled;
    CountedStep(s, step);
    ExecuteStep(s, step);
    KnownStep(s, step);
    TicketedStep(s, step);
    LeavesStep(s, step);
    var w :| At(s, w);
    StaysAt(s, step, w);
  }

  lemma LeavesStep(s: State, step: Step)
    requires LeavesWhenStopping(s) && Enabled(s, step)
    ensures LeavesWhenStopping(Next(s, step))
  {}

  lemma StaysAt(s: State, step: Step, w: Thread)
    requires At(s, w) && Enabled(s, step)
    ensures At(Next(s, step), w)
  {}

  /** No unpinned entry comes from outside once every worker has left. */
  ghost predicate NoLateOutsider(s: State, step: Step) {
    step.Schedule? && step.thread == -1 ==> !AllExited(s)
  }

  /** Every step of a worker but its exit leaves it in the loop. */
  lemma StillWorking(s: State, step: Step)
    requires Enabled(s, step) && !step.NoTask? && !step.Stop? && !step.Schedule?
    ensures !AllExited(Next(s, step))
  {
    var t := Next(s, step);
    assert At(t, step.w) && !t.workers[step.w].Exited?;
  }

  lemma NobodyExecutes(s: State, w: Thread)
    requires ExecuteIsRun(s) && At(s, w) && s.workers[w].Scan?
    requires forall v :: v in s.workers && v != w ==> s.workers[v].Exited?
    ensures forall f :: !Executes(s, f)
  {
    assert forall v, f :: !Runs(s, v, f);
  }

  /** When the last worker leaves, nothing fits it, and nobody is left to run a fiber. */
  lemma DrainedStep(s: State, step: Step)
    requires Inv(s) && Drained(s) && Enabled(s, step) && NoLateOutsider(s, step)
    ensures Drained(Next(s, step))
  {
    var t := Next(s, step);
    match step {
      case NoTask(w) =>
        if AllExited(t) {
          assert forall v :: v in s.workers && v != w ==> t.workers[v] == s.workers[v];
          NobodyExecutes(s, w);
          forall i | 0 <= i < |t.queue| ensures t.queue[i].thread != -1 {
            assert Skipped(s.fibers, s.queue[i], w);
            assert s.queue[i].task.Resume? ==> !Executes(s, s.queue[i].task.fiber);
          }
        }
      case Stop =>
      case Schedule(_, _) =>
      case _ => StillWorking(s, step);
    }
  }

  ghost predicate HasUnpinned(s: State) {
    exists i :: 0 <= i < |s.queue| && s.queue[i].thread == -1
  }

  /** Once every worker has left, an unpinned entry stays in the queue for good. */
  lemma StrandedStep(s: State, step: Step)
    requires Inv(s) && Enabled(s, step) && AllExited(s)
    ensures AllExited(Next(s, step))
    ensures HasUnpinned(s) || (step.Schedule? && step.thread == -1) ==> HasUnpinned(Next(s, step))
  {
    var t := Next(s, step);
    if step.Schedule? {
      assert t.queue[|s.queue|].thread == step.thread;
      assert forall i :: 0 <= i < |s.queue| ==> t.queue[i] == s.queue[i];
    }
  }

  // ------------------------------------------------------------------------ over whole runs

  lemma {:induction false} RunInv(states: seq<State>, steps: seq<Step>, k: nat)
    requires IsRun(states, steps) && k < |states|
    ensures Inv(states[k])
  {
    if k == 0 {
      InitialInv(states[0]);
    } else {
      RunInv(states, steps, k - 1);
      InvStep(states[k - 1], steps[k - 1]);
    }
  }

  /** In every run the active count is the number of workers between the increment and its
      matching decrement. */
  lemma CountIsExact(states: seq<State>, steps: seq<Step>, k: nat)
    requires IsRun(states, steps) && k < |states|
    ensures states[k].active == |ActiveWorkers(states[k])|
  {
    RunInv(states, steps, k);
  }

  /** In every run each scheduled entry is still queued or was taken, not both, and a
      pinned entry was taken by its own thread. */
  lemma TakenOnceByItsThread(states: seq<State>, steps: seq<Step>, k: nat, ticket: nat)
    requires IsRun(states, steps) && k < |states| && ticket < states[k].nextTicket
    ensures ticket in states[k].taken <==> !InQueue(states[k].queue, ticket)
    ensures ticket in states[k].taken ==>
      var e := states[k].taken[ticket];
      e.entry.ticket == ticket && (e.entry.thread != -1 ==> e.entry.thread == e.worker)
  {
    RunInv(states, steps, k);
  }

  /** Who took an entry never changes later in the run. */
  lemma {:induction false} TakenStays(states: seq<State>, steps: seq<Step>, j: nat, k: nat, ticket: nat)
    requires IsRun(states, steps) && j <= k < |states| && ticket in states[j].taken
    ensures ticket in states[k].taken && states[k].taken[ticket] == states[j].taken[ticket]
    decreases k - j
  {
    if j == k {
    } else {
      RunInv(states, steps, j);
      var s, step := states[j], steps[j];
      assert ticket in Next(s, step).taken && Next(s, step).taken[ticket] == s.taken[ticket];
      TakenStays(states, steps, j + 1, k, ticket);
    }
  }

  /** When the last worker has left `run`, no worker holds a task and no unpinned entry
      is queued, unless one was scheduled from outside after the last worker left. */
  lemma LastWorkerLeavesNothing(states: seq<State>, steps: seq<Step>, k: nat)
    requires IsRun(states, steps) && k < |states| && AllExited(states[k])
    ensures states[k].stopping && ActiveWorkers(states[k]) == {} && states[k].active == 0
    ensures HasUnpinned(states[k]) <==>
      exists i :: 0 <= i < k && AllExited(states[i]) && steps[i].Schedule? && steps[i].thread == -1
  {
    RunInv(states, steps, k);
    assert forall w :: w in states[k].workers ==> !IsActive(states[k].workers[w]);
    var w :| At(states[k], w);
    assert states[k].workers[w].Exited?;
    if i :| 0 <= i < k && AllExited(states[i]) && steps[i].Schedule? && steps[i].thread == -1 {
      RunInv(states, steps, i);
      StrandedStep(states[i], steps[i]);
      RunStranded(states, steps, i + 1, k);
    } else {
      RunDrained(states, steps, k);
    }
  }

  lemma {:induction false} RunDrained(states: seq<State>, steps: seq<Step>, k: nat)
    requires IsRun(states, steps) && k < |states|
    requires forall i :: 0 <= i < k ==> NoLateOutsider(states[i], steps[i])
    ensures Drained(states[k])
  {
    if k == 0 {
      InitialInv(states[0]);
    } else {
      RunInv(states, steps, k - 1);
      RunDrained(states, steps, k - 1);
      DrainedStep(states[k - 1], steps[k - 1]);
    }
  }

  lemma {:induction false} RunStranded(states: seq<State>, steps: seq<Step>, j: nat, k: nat)
    requires IsRun(states, steps) && j <= k < |states| && AllExited(states[j]) && HasUnpinned(states[j])
    ensures HasUnpinned(states[k])
    decreases k - j
  {
    if j == k {
    } else {
      RunInv(states, steps, j);
      StrandedStep(states[j], steps[j]);
      RunStranded(states, steps, j + 1, k);
    }
  }

  // --------------------------------------------------------------------- pinned entries

  /** Entry `ticket` waits for a thread that has left `run`, or that is no worker. */
  ghost predicate DeadPin(s: State, ticket: nat) {
    exists i :: 0 <= i < |s.queue| && s.queue[i].ticket == ticket && PinnedAway(s, s.queue[i])
  }

  predicate PinnedAway(s: State, e: Entry) {
    e.thread != -1 && (e.thread in s.workers ==> s.workers[e.thread].Exited?)
  }

  /** Nobody can take it, and while it is queued nobody finds the scheduler stopping. */
  lemma DeadPinStep(s: State, step: Step, ticket: nat)
    requires Enabled(s, step) && DeadPin(s, ticket)
    ensures DeadPin(Next(s, step), ticket) && Next(s, step).idleOver == s.idleOver
  {
    var t := Next(s, step);
    var i :| 0 <= i < |s.queue| && s.queue[i].ticket == ticket && PinnedAway(s, s.queue[i]);
    ghost var j := if step.Take? && step.k < i then i - 1 else i;
    PinStays(s, step, i);
    assert t.queue[j] == s.queue[i];
  }

  lemma PinStays(s: State, step: Step, i: nat)
    requires Enabled(s, step) && i < |s.queue| && PinnedAway(s, s.queue[i])
    ensures PinnedAway(Next(s, step), s.queue[i]) && Next(s, step).idleOver == s.idleOver
    ensures step.Take? ==> step.k != i && Next(s, step).queue == Without(s.queue, step.k)
    ensures !step.Take? ==> s.queue <= Next(s, step).queue
  {}

  /** In every run: once an entry is pinned to a worker that has left, it stays queued, no
      worker ever finds the scheduler stopping again, and a worker whose idle fiber had not
      ended by then never leaves. */
  lemma {:induction false} DeadPinBlocksStop(states: seq<State>, steps: seq<Step>, j: nat, k: nat, ticket: nat)
    requires IsRun(states, steps) && j <= k < |states| && DeadPin(states[j], ticket)
    ensures DeadPin(states[k], ticket) && !StoppingNow(states[k]) && states[k].idleOver == states[j].idleOver
    ensures forall w :: w in states[j].workers && !states[j].workers[w].Exited? && w !in states[j].idleOver ==>
      w in states[k].workers && !states[k].workers[w].Exited?
    decreases k
  {
    hide DeadPin, Next, Enabled;
    if j == k {
    } else {
      DeadPinBlocksStop(states, steps, j, k - 1, ticket);
      DeadPinStep(states[k - 1], steps[k - 1], ticket);
      OnlyIdleOverLeaves(states[k - 1], steps[k - 1]);
    }
    DeadPinQueued(states[k], ticket);
  }

  lemma DeadPinQueued(s: State, ticket: nat)
    requires DeadPin(s, ticket)
    ensures s.queue != []
  {}

  lemma OnlyIdleOverLeaves(s: State, step: Step)
    requires Enabled(s, step)
    ensures forall w :: w in s.workers && !s.workers[w].Exited? && w !in s.idleOver ==>
      w in Next(s, step).workers && !Next(s, step).workers[w].Exited?
  {}
}
