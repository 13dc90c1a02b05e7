/** What the queue, the workers and the fibers of the worker loop owe to the steps of a run. */
module SchedulingHistory {
  import opened Scheduling

  // ------------------------------------------------------------------------ tickets

  /** The step puts an entry into the queue. */
  predicate Makes(step: Step) {
    step.Schedule? || step.ScheduleBy? || step.RequeueReady?
  }

  /** The steps before `k` that put an entry into the queue. */
  ghost function Made(steps: seq<Step>, k: nat): (made: set<nat>)
    requires k <= |steps|
  {
    set i: nat | i < k && Makes(steps[i])
  }

  lemma MadeGrows(steps: seq<Step>, k: nat)
    requires k < |steps|
    ensures |Made(steps, k + 1)| == |Made(steps, k)| + if Makes(steps[k]) then 1 else 0
  {
    assert Made(steps, k + 1) == if Makes(steps[k]) then Made(steps, k) + {k} else Made(steps, k);
  }

  lemma NothingMade(steps: seq<Step>)
    ensures |Made(steps, 0)| == 0
  {
    assert Made(steps, 0) == {};
  }

  /** In every run the next ticket is the number of entries made so far. */
  lemma {:induction false} TicketsCount(states: seq<State>, steps: seq<Step>, k: nat)
    requires IsRun(states, steps) && k < |states|
    ensures states[k].nextTicket == |Made(steps, k)|
  {
    hide Next, Made;
    if k == 0 {
      NothingMade(steps);
    } else {
      TicketsCount(states, steps, k - 1);
      MadeGrows(steps, k - 1);
      assert Enabled(states[k - 1], steps[k - 1]) && states[k] == Next(states[k - 1], steps[k - 1]);
      TicketDrawn(states[k - 1], steps[k - 1]);
    }
  }

  lemma TicketDrawn(s: State, step: Step)
    requires Enabled(s, step)
    ensures Next(s, step).nextTicket == s.nextTicket + if Makes(step) then 1 else 0
  {}

  /** The entry is in the queue or was taken from it. */
  predicate Present(s: State, e: Entry) {
    e in s.queue || (e.ticket in s.taken && s.taken[e.ticket].entry == e)
  }

  /** In every run the n-th entry made carries the ticket n, and what that step asked for: its
      task and its thread, or, for a fiber that gave itself up ready, that fiber and any thread. */
  lemma EntryIsMade(states: seq<State>, steps: seq<Step>, i: nat, k: nat)
    requires IsRun(states, steps) && i < k < |states| && Makes(steps[i])
    ensures var n := |Made(steps, i)|;
      match steps[i]
      case Schedule(task, thread) => Present(states[k], Entry(task, thread, n))
      case ScheduleBy(_, task, thread) => Present(states[k], Entry(task, thread, n))
      case RequeueReady(w) =>
        && w in states[i].workers && states[i].workers[w].Requeue?
        && Present(states[k], Entry(Resume(states[i].workers[w].fiber), -1, n))
  {
    hide Next, Made, Inv;
    TicketsCount(states, steps, i);
    var s, step := states[i], steps[i];
    assert Enabled(s, step) && states[i + 1] == Next(s, step);
    EntryPushed(s, step);
    match step {
      case Schedule(task, thread) => StaysPresent(states, steps, i + 1, k, Entry(task, thread, s.nextTicket));
      case ScheduleBy(_, task, thread) => StaysPresent(states, steps, i + 1, k, Entry(task, thread, s.nextTicket));
      case RequeueReady(w) =>
        StaysPresent(states, steps, i + 1, k, Entry(Resume(s.workers[w].fiber), -1, s.nextTicket));
    }
  }

  /** What the step puts into the queue, at its end. */
  lemma EntryPushed(s: State, step: Step)
    requires Enabled(s, step) && Makes(step)
    ensures match step
      case Schedule(task, thread) => Next(s, step).queue == s.queue + [Entry(task, thread, s.nextTicket)]
      case ScheduleBy(_, task, thread) => Next(s, step).queue == s.queue + [Entry(task, thread, s.nextTicket)]
      case RequeueReady(w) => Next(s, step).queue == s.queue + [Entry(Resume(s.workers[w].fiber), -1, s.nextTicket)]
  {}

  lemma {:induction false} StaysPresent(states: seq<State>, steps: seq<Step>, j: nat, k: nat, e: Entry)
    requires IsRun(states, steps) && j <= k < |states| && Present(states[j], e)
    ensures Present(states[k], e)
    decreases k - j
  {
    hide Next, Present, Inv;
    if j == k {
    } else {
      RunInv(states, steps, j);
      assert Enabled(states[j], steps[j]) && states[j + 1] == Next(states[j], steps[j]);
      PresentStep(states[j], steps[j], e);
      StaysPresent(states, steps, j + 1, k, e);
    }
  }

  lemma PresentStep(s: State, step: Step, e: Entry)
    requires Inv(s) && Enabled(s, step) && Present(s, e)
    ensures Present(Next(s, step), e)
  {
    hide Counted, ExecuteIsRun, Known, LeavesWhenStopping, Next;
    if step.Take? {
      TakeKeeps(s, step.w, step.k, e);
    } else {
      QueueGrows(s, step);
      TakenSame(s, step);
    }
  }

  lemma TakeKeeps(s: State, w: Thread, k: nat, e: Entry)
    requires Ticketed(s) && Enabled(s, Take(w, k)) && Present(s, e)
    ensures Present(Next(s, Take(w, k)), e)
  {
    if e in s.queue {
      var i :| 0 <= i < |s.queue| && s.queue[i] == e;
      if i != k {
        assert Without(s.queue, k)[if i < k then i else i - 1] == e;
      }
    }
  }

  lemma TakenSame(s: State, step: Step)
    requires Enabled(s, step) && !step.Take?
    ensures Next(s, step).taken == s.taken
  {}

  /** No entry comes from anywhere else: whatever is queued or was taken was made by the step
      that its ticket names. */
  lemma EntryWasMade(states: seq<State>, steps: seq<Step>, k: nat, e: Entry)
    requires IsRun(states, steps) && k < |states| && Present(states[k], e)
    ensures exists i: nat :: i < k && Makes(steps[i]) && |Made(steps, i)| == e.ticket
  {
    hide Next, Inv, Present, Made;
    RunInv(states, steps, k);
    PresentTicket(states[k], e);
    TicketsCount(states, steps, k);
    MakerOf(steps, k, e.ticket);
  }

  lemma PresentTicket(s: State, e: Entry)
    requires Inv(s) && Present(s, e)
    ensures e.ticket < s.nextTicket
  {}

  lemma {:induction false} MakerOf(steps: seq<Step>, k: nat, n: nat)
    requires k <= |steps| && n < |Made(steps, k)|
    ensures exists i: nat :: i < k && Makes(steps[i]) && |Made(steps, i)| == n
  {
    hide Made;
    if k == 0 {
      NothingMade(steps);
    } else {
      MadeGrows(steps, k - 1);
      if n < |Made(steps, k - 1)| {
        MakerOf(steps, k - 1, n);
      }
    }
  }

  /** In every run the queue is in the order in which its entries were made. */
  lemma {:induction false} QueueInOrder(states: seq<State>, steps: seq<Step>, k: nat, i: nat, j: nat)
    requires IsRun(states, steps) && k < |states| && i < j < |states[k].queue|
    ensures states[k].queue[i].ticket < states[k].queue[j].ticket
  {
    hide Next, Inv;
    if k == 0 {
    } else {
      var s, step := states[k - 1], steps[k - 1];
      RunInv(states, steps, k - 1);
      assert Enabled(s, step) && states[k] == Next(s, step);
      if step.Take? {
        TakeShifts(s, step);
        QueueInOrder(states, steps, k - 1, if i < step.k then i else i + 1, if j < step.k then j else j + 1);
      } else {
        QueueGrows(s, step);
        if j < |s.queue| {
          QueueInOrder(states, steps, k - 1, i, j);
        } else {
          TicketsBelow(s, i);
        }
      }
    }
  }

  lemma TakeShifts(s: State, step: Step)
    requires Enabled(s, step) && step.Take?
    ensures var q := Next(s, step).queue;
      |q| == |s.queue| - 1 && forall i :: 0 <= i < |q| ==> q[i] == s.queue[if i < step.k then i else i + 1]
  {}

  lemma QueueGrows(s: State, step: Step)
    requires Enabled(s, step) && !step.Take?
    ensures var q := Next(s, step).queue;
      if Makes(step) then |q| == |s.queue| + 1 && s.queue <= q && q[|s.queue|].ticket == s.nextTicket
      else q == s.queue
  {}

  lemma TicketsBelow(s: State, i: nat)
    requires Inv(s) && i < |s.queue|
    ensures s.queue[i].ticket < s.nextTicket
  {}

  /** In every run a worker has taken an entry exactly when it was at the top of the loop, and
      the entry the first one in the queue that it does not have to leave there. */
  lemma {:induction false} TakenIff(states: seq<State>, steps: seq<Step>, k: nat, e: Entry, w: Thread)
    requires IsRun(states, steps) && k < |states|
    ensures e.ticket in states[k].taken && states[k].taken[e.ticket] == Taking(e, w) <==>
      exists i: nat :: i < k && Takes(states[i], steps[i], e, w)
  {
    hide Next, Takes, Inv;
    if k == 0 {
      assert states[0].taken == map[];
    } else {
      TakenIff(states, steps, k - 1, e, w);
      RunInv(states, steps, k - 1);
      assert Enabled(states[k - 1], steps[k - 1]) && states[k] == Next(states[k - 1], steps[k - 1]);
      TakenStep(states[k - 1], steps[k - 1], e, w);
    }
  }

  predicate Takes(s: State, step: Step, e: Entry, w: Thread) {
    step.Take? && step.w == w && step.k < |s.queue| && s.queue[step.k] == e
  }

  lemma TakenStep(s: State, step: Step, e: Entry, w: Thread)
    requires Inv(s) && Enabled(s, step)
    ensures e.ticket in Next(s, step).taken && Next(s, step).taken[e.ticket] == Taking(e, w) <==>
      (e.ticket in s.taken && s.taken[e.ticket] == Taking(e, w)) || Takes(s, step, e, w)
  {
    hide Counted, ExecuteIsRun, Known, LeavesWhenStopping;
  }

  /** In every run a worker takes the first entry that is not pinned to another thread and not
      a fiber in state Execute, and goes idle when there is none. */
  lemma TakesFirstFit(states: seq<State>, steps: seq<Step>, k: nat, i: nat)
    requires IsRun(states, steps) && k < |steps| && (steps[k].Take? || steps[k].NoTask?)
    requires i < |states[k].queue| && (steps[k].Take? ==> i <= steps[k].k)
    ensures var s, e := states[k], states[k].queue[i];
      (steps[k].Take? && i == steps[k].k) <==>
        && (e.thread == -1 || e.thread == steps[k].w)
        && (e.task.Resume? ==> e.task.fiber in s.fibers && s.fibers[e.task.fiber] != Execute)
  {
    hide Counted, ExecuteIsRun, Ticketed, LeavesWhenStopping, Next;
    RunInv(states, steps, k);
    assert Enabled(states[k], steps[k]);
  }

  // ------------------------------------------------------------------------ stopping

  /** In every run the scheduler is stopping once it was told to. */
  lemma {:induction false} StoppingIff(states: seq<State>, steps: seq<Step>, k: nat)
    requires IsRun(states, steps) && k < |states|
    ensures states[k].stopping <==> exists i: nat :: i < k && steps[i].Stop?
  {
    hide Next;
    if k == 0 {
    } else {
      StoppingIff(states, steps, k - 1);
      assert Enabled(states[k - 1], steps[k - 1]) && states[k] == Next(states[k - 1], steps[k - 1]);
      StoppingStep(states[k - 1], steps[k - 1]);
    }
  }

  lemma StoppingStep(s: State, step: Step)
    requires Enabled(s, step)
    ensures Next(s, step).stopping <==> s.stopping || step.Stop?
  {}

  /** The idle fiber of `w` makes its test with nothing queued and nobody active, after `stop`. */
  predicate FindsStopping(s: State, step: Step, w: Thread) {
    step == TestStopping(w) && s.stopping && s.queue == [] && s.active == 0
  }

  /** In every run the idle fiber of a worker has ended exactly when it once found that. */
  lemma {:induction false} IdleOverIff(states: seq<State>, steps: seq<Step>, k: nat, w: Thread)
    requires IsRun(states, steps) && k < |states|
    ensures w in states[k].idleOver <==> exists i: nat :: i < k && FindsStopping(states[i], steps[i], w)
  {
    hide FindsStopping, Next;
    if k == 0 {
      assert states[0].idleOver == {};
    } else {
      IdleOverIff(states, steps, k - 1, w);
      assert Enabled(states[k - 1], steps[k - 1]) && states[k] == Next(states[k - 1], steps[k - 1]);
      IdleOverStep(states[k - 1], steps[k - 1], w);
    }
  }

  lemma IdleOverStep(s: State, step: Step, w: Thread)
    requires Enabled(s, step)
    ensures w in Next(s, step).idleOver <==> w in s.idleOver || FindsStopping(s, step, w)
  {}

  // ------------------------------------------------------------------------ workers and fibers

  /** What happens to one worker: it goes round the loop of `run` and moves by its own steps
      only, unless an assertion ends the program. */
  lemma WorkerMovesOn(states: seq<State>, steps: seq<Step>, k: nat, w: Thread)
    requires IsRun(states, steps) && k < |steps| && w in states[k].workers
    ensures w in states[k + 1].workers
    ensures var s, p, q := states[k], states[k].workers[w], states[k + 1].workers[w];
      if steps[k].Schedule? || steps[k].ScheduleBy? || steps[k].Stop? || steps[k].w != w || states[k + 1].failed then
        q == p
      else
        match steps[k]
        case Take(_, i) => q == Taken(s.queue[i].task)
        case NoTask(_) => q == if w in s.idleOver then Exited else Idle
        case Check(_) =>
          (match p.task
           case Callback => q == Running(s.nextFiber)
           case Resume(f) =>
             q == if f in s.fibers && (s.fibers[f] == Terminate || s.fibers[f] == Exception) then Discard else Live(f))
        case Test(_) => q == Entering(p.fiber)
        case SwitchIn(_) => q == Running(p.fiber)
        case Yield(_, _) => q == Yielded(p.fiber)
        case SwapOut(_) => q == Back(p.fiber)
        case Decrement(_) => q == if p.Back? then Settle(p.fiber) else Scan
        case Look(_) =>
          p.fiber in s.fibers
          && q == (match s.fibers[p.fiber]
                   case Ready => Requeue(p.fiber)
                   case Terminate => Scan
                   case Exception => Scan
                   case _ => Hold(p.fiber))
        case _ => q == Scan
  {
    hide Counted, ExecuteIsRun, Ticketed, LeavesWhenStopping;
    RunInv(states, steps, k);
    var s, step := states[k], steps[k];
    assert Enabled(s, step) && states[k + 1] == Next(s, step);
    if step.Look? && step.w == w {
      assert Concerns(s.workers[w], s.workers[w].fiber);
    }
  }

  /** What happens to the state of one fiber: only these steps write it. */
  lemma FiberMovesOn(states: seq<State>, steps: seq<Step>, k: nat, f: Fiber)
    requires IsRun(states, steps) && k < |steps| && f in states[k].fibers
    ensures f in states[k + 1].fibers
    ensures var s, step, q := states[k], steps[k], states[k + 1].fibers[f];
      if states[k + 1].failed then q == s.fibers[f]
      else if step.SwitchIn? && s.workers[step.w] == Entering(f) then q == Execute
      else if step.Yield? && s.workers[step.w] == Running(f) then q == step.to
      else if step.WriteHolding? && s.workers[step.w] == Hold(f) then q == Holding
      else q == s.fibers[f]
  {
    hide Counted, ExecuteIsRun, Ticketed, LeavesWhenStopping;
    RunInv(states, steps, k);
    assert Enabled(states[k], steps[k]) && states[k + 1] == Next(states[k], steps[k]);
    assert f < states[k].nextFiber;
  }

  /** A new fiber comes into being when a worker runs a callback. */
  lemma FiberBegins(states: seq<State>, steps: seq<Step>, k: nat, f: Fiber)
    requires IsRun(states, steps) && k < |steps| && f !in states[k].fibers
    ensures f in states[k + 1].fibers <==>
      steps[k].Check? && states[k].workers[steps[k].w] == Taken(Callback) && f == states[k].nextFiber
    ensures f in states[k + 1].fibers ==> states[k + 1].fibers[f] == Execute
  {
    hide Counted, ExecuteIsRun, Ticketed, LeavesWhenStopping;
    RunInv(states, steps, k);
    var s, step := states[k], steps[k];
    assert Enabled(s, step) && states[k + 1] == Next(s, step);
    if step.SwitchIn? || step.Yield? || step.WriteHolding? {
      assert Concerns(s.workers[step.w], s.workers[step.w].fiber);
    }
  }

  /** An assertion fails: `swapIn` finds its fiber running, or a fiber that gives itself up is
      not in the state of one that runs. */
  predicate Fails(s: State, step: Step) {
    || (step.Test? && At(s, step.w) && s.workers[step.w].Live? && Executes(s, s.workers[step.w].fiber))
    || (step.Yield? && At(s, step.w) && s.workers[step.w].Running?
        && (step.to == Ready || step.to == Holding) && !Executes(s, s.workers[step.w].fiber))
  }

  /** In every run the program has ended exactly when the last step failed an assertion. */
  lemma FailedIff(states: seq<State>, steps: seq<Step>, k: nat)
    requires IsRun(states, steps) && k < |states|
    ensures states[k].failed <==> k > 0 && Fails(states[k - 1], steps[k - 1])
    ensures states[k].failed ==> k == |steps|
  {
    if k > 0 {
      assert Enabled(states[k - 1], steps[k - 1]) && states[k] == Next(states[k - 1], steps[k - 1]);
    }
    if k < |steps| {
      assert Enabled(states[k], steps[k]);
    }
  }

  /** Nothing holds a worker up: in every state of a run that goes on, each one that has not
      left has a step open, at the top of the loop the take of the first entry that fits it or,
      if none does, the way to its idle fiber. */
  lemma WorkerStepIsOpen(states: seq<State>, steps: seq<Step>, k: nat, w: Thread)
    requires IsRun(states, steps) && k < |states| && !states[k].failed && w in states[k].workers
    ensures var s := states[k];
      match s.workers[w]
      case Scan =>
        if forall i :: 0 <= i < |s.queue| ==> Skipped(s.fibers, s.queue[i], w) then Enabled(s, NoTask(w))
        else exists i: nat :: i < |s.queue| && !Skipped(s.fibers, s.queue[i], w) && Enabled(s, Take(w, i))
      case Taken(_) => Enabled(s, Check(w))
      case Live(_) => Enabled(s, Test(w))
      case Entering(_) => Enabled(s, SwitchIn(w))
      case Running(_) => forall to :: to != Execute ==> Enabled(s, Yield(w, to))
      case Yielded(_) => Enabled(s, SwapOut(w))
      case Back(_) => Enabled(s, Decrement(w))
      case Discard => Enabled(s, Decrement(w))
      case Settle(_) => Enabled(s, Look(w))
      case Requeue(_) => Enabled(s, RequeueReady(w))
      case Hold(_) => Enabled(s, WriteHolding(w))
      case Idle => Enabled(s, TestStopping(w))
      case Exited => true
  {
    hide Skipped;
    var s := states[k];
    if s.workers[w].Scan? && !NothingFits(s.fibers, s.queue, w) {
      var i := FirstOf(s.fibers, s.queue, w);
      assert Enabled(s, Take(w, i));
    }
  }

  lemma FirstOf(fibers: map<Fiber, FiberState>, queue: seq<Entry>, w: Thread) returns (k: nat)
    requires !NothingFits(fibers, queue, w)
    ensures FirstFit(fibers, queue, w, k)
  {
    hide Skipped;
    k := 0;
    while Skipped(fibers, queue[k], w)
      invariant k < |queue| && forall i :: 0 <= i < k ==> Skipped(fibers, queue[i], w)
      decreases |queue| - k
    {
      k := k + 1;
    }
  }
}
