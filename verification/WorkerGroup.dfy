/** A group of workers that admits at most a batch of callbacks at a time. Each step is one
    semaphore operation, or what a fiber does between two of them. */
module WorkerGroups {
  /** Who waits on the semaphore: a caller of schedule, or the caller of waitAll. */
  datatype Waiter = Submitter(id: nat) | Collector

  /** The first caller of waitAll: not yet there, between two waits with `got` permits, parked
      in a wait, handed a permit but not yet running, or returned. */
  datatype Waiting = NotStarted | Running(got: nat) | Parked(got: nat) | Handed(got: nat) | Returned

  /** `granted` callers of schedule hold a permit and have not yet scheduled their callback;
      `tasks` callbacks are scheduled or running. `finish` is the source's flag. */
  datatype State = State(batch: nat, permits: nat, waiters: seq<Waiter>, granted: nat, tasks: nat,
                         waiting: Waiting, finish: bool)

  datatype Step =
    | Schedule(id: nat)      // schedule() calls wait()
    | Submit                 // schedule() goes on with its permit
    | Done                   // doWork's callback has returned; notify()
    | WaitAll                // waitAll() is called
    | Collect                // waitAll() calls wait() once more
    | Resume                 // waitAll() is back from a park
    | Return                 // waitAll()'s loop is over

  ghost function Start(batch: nat): State {
    State(batch, batch, [], 0, 0, NotStarted, false)
  }

  /** notify(): the permit goes to the first waiter, or back. */
  ghost function Notified(s: State): State {
    if s.waiters == [] then s.(permits := s.permits + 1)
    else match s.waiters[0]
      case Submitter(_) => s.(waiters := s.waiters[1..], granted := s.granted + 1)
      case Collector =>
        s.(waiters := s.waiters[1..], waiting := if s.waiting.Parked? then Handed(s.waiting.got) else s.waiting)
  }

  ghost predicate Next(s: State, step: Step, t: State) {
    match step
    case Schedule(id) =>
      if s.permits > 0 then t == s.(permits := s.permits - 1, granted := s.granted + 1)
      else t == s.(waiters := s.waiters + [Submitter(id)])
    case Submit => s.granted > 0 && t == s.(granted := s.granted - 1, tasks := s.tasks + 1)
    case Done => s.tasks > 0 && t == Notified(s.(tasks := s.tasks - 1))
    case WaitAll => if s.finish then t == s else t == s.(finish := true, waiting := Running(0))
    case Collect =>
      && s.waiting.Running? && s.waiting.got < s.batch
      && if s.permits > 0 then t == s.(permits := s.permits - 1, waiting := Running(s.waiting.got + 1))
         else t == s.(waiters := s.waiters + [Collector], waiting := Parked(s.waiting.got))
    case Resume => s.waiting.Handed? && t == s.(waiting := Running(s.waiting.got + 1))
    case Return => s.waiting.Running? && s.waiting.got == s.batch && t == s.(waiting := Returned)
  }

  ghost predicate IsRun(states: seq<State>, steps: seq<Step>, batch: nat) {
    && |states| == |steps| + 1
    && states[0] == Start(batch)
    && forall k :: 0 <= k < |steps| ==> Next(states[k], steps[k], states[k + 1])
  }

  /** The permits the caller of waitAll has taken, or been handed. */
  ghost function Held(s: State): nat {
    match s.waiting
    case NotStarted => 0
    case Running(got) => got
    case Parked(got) => got
    case Handed(got) => got + 1
    case Returned => s.batch
  }

  ghost function Collectors(waiters: seq<Waiter>): nat {
    if waiters == [] then 0 else (if waiters[0].Collector? then 1 else 0) + Collectors(waiters[1..])
  }

  lemma {:induction false} CollectorsAppend(waiters: seq<Waiter>, w: Waiter)
    ensures Collectors(waiters + [w]) == Collectors(waiters) + (if w.Collector? then 1 else 0)
  {
    if waiters != [] {
      assert (waiters + [w])[1..] == waiters[1..] + [w];
      CollectorsAppend(waiters[1..], w);
    } else {
      assert (waiters + [w])[1..] == [];
    }
  }

  /** Every permit is free, on its way to a callback, with a callback, or with waitAll; none
      is free while someone waits; waitAll's caller waits at most once. */
  ghost predicate Inv(s: State) {
    && s.permits + s.granted + s.tasks + Held(s) == s.batch
    && (s.permits > 0 ==> s.waiters == [])
    && Collectors(s.waiters) == (if s.waiting.Parked? then 1 else 0)
    && (s.finish <==> !s.waiting.NotStarted?)
  }

  lemma InvStep(s: State, step: Step, t: State)
    requires Inv(s) && Next(s, step, t)
    ensures Inv(t) && t.batch == s.batch
  {
    CollectorsAppend(s.waiters, Collector);
    if step.Schedule? {
      CollectorsAppend(s.waiters, Submitter(step.id));
    }
  }

  lemma {:induction false} RunInv(states: seq<State>, steps: seq<Step>, batch: nat, k: nat)
    requires IsRun(states, steps, batch) && k < |states|
    ensures Inv(states[k]) && states[k].batch == batch
  {
    if k == 0 {
    } else {
      RunInv(states, steps, batch, k - 1);
      InvStep(states[k - 1], steps[k - 1], states[k]);
    }
  }

  /** Never more than a batch of callbacks in flight. */
  lemma InFlightBound(states: seq<State>, steps: seq<Step>, batch: nat, k: nat)
    requires IsRun(states, steps, batch) && k < |states|
    ensures states[k].granted + states[k].tasks <= batch
  {
    RunInv(states, steps, batch, k);
  }

  /** Once waitAll has returned to its first caller nothing is in flight, and nothing will be. */
  lemma {:induction false} NothingAfterWaitAll(states: seq<State>, steps: seq<Step>, batch: nat, k: nat, j: nat)
    requires IsRun(states, steps, batch) && k <= j < |states| && states[k].waiting.Returned?
    ensures states[j].granted == states[j].tasks == 0
    ensures states[j].waiting.Returned?
    decreases j
  {
    RunInv(states, steps, batch, j);
    if j == k {
    } else {
      NothingAfterWaitAll(states, steps, batch, k, j - 1);
      RunInv(states, steps, batch, j - 1);
      assert Next(states[j - 1], steps[j - 1], states[j]);
    }
  }

  /** No permit is idle while a caller waits, so a waiter is only ever behind a full batch. */
  lemma WaitersMeanFull(states: seq<State>, steps: seq<Step>, batch: nat, k: nat)
    requires IsRun(states, steps, batch) && k < |states| && states[k].waiters != []
    ensures states[k].granted + states[k].tasks + Held(states[k]) == batch
  {
    RunInv(states, steps, batch, k);
  }

  /** Those who had to wait before state `k`, in the order in which they came. */
  ghost function Arrived(states: seq<State>, steps: seq<Step>, k: nat): seq<Waiter>
    requires k <= |steps| <= |states|
  {
    if k == 0 then []
    else
      var before, s := Arrived(states, steps, k - 1), states[k - 1];
      if s.permits > 0 then before
      else
        match steps[k - 1]
        case Schedule(id) => before + [Submitter(id)]
        case Collect => before + [Collector]
        case _ => before
  }

  /** The number of callbacks that returned before state `k` while someone waited. */
  ghost function Served(states: seq<State>, steps: seq<Step>, k: nat): nat
    requires k <= |steps| <= |states|
  {
    if k == 0 then 0
    else Served(states, steps, k - 1) + if steps[k - 1].Done? && states[k - 1].waiters != [] then 1 else 0
  }

  /** In every run waiters are served in the order in which they came: each callback that
      returns takes the first of them out, and nobody else leaves or jumps in. */
  lemma {:induction false} ServedInOrder(states: seq<State>, steps: seq<Step>, batch: nat, k: nat)
    requires IsRun(states, steps, batch) && k < |states|
    ensures Served(states, steps, k) <= |Arrived(states, steps, k)|
    ensures states[k].waiters == Arrived(states, steps, k)[Served(states, steps, k)..]
  {
    if k == 0 {
    } else {
      ServedInOrder(states, steps, batch, k - 1);
      assert Next(states[k - 1], steps[k - 1], states[k]);
      var came, n := Arrived(states, steps, k - 1), Served(states, steps, k - 1);
      assert forall w :: (came + [w])[n..] == came[n..] + [w];
      assert n < |came| ==> came[n..][1..] == came[n + 1..];
    }
  }

  /** In every run a callback that returns gives its permit to the first waiter, a caller of
      schedule or of waitAll, and back only when nobody waits. */
  lemma PermitMoves(states: seq<State>, steps: seq<Step>, batch: nat, k: nat)
    requires IsRun(states, steps, batch) && k < |steps|
    ensures var s, t := states[k], states[k + 1];
      match steps[k]
      case Done =>
        && t.tasks == s.tasks - 1
        && t.permits == (if s.waiters == [] then s.permits + 1 else s.permits)
        && t.granted == (if s.waiters != [] && s.waiters[0].Submitter? then s.granted + 1 else s.granted)
        && t.waiting == (if s.waiters != [] && s.waiters[0] == Collector then Handed(Held(s)) else s.waiting)
      case Schedule(_) =>
        && t.tasks == s.tasks && t.waiting == s.waiting
        && t.permits == (if s.permits > 0 then s.permits - 1 else 0)
        && t.granted == (if s.permits > 0 then s.granted + 1 else s.granted)
      case Submit =>
        && t.tasks == s.tasks + 1 && t.granted == s.granted - 1
        && t.permits == s.permits && t.waiting == s.waiting
      case _ => t.tasks == s.tasks && t.granted == s.granted && Held(t) + t.permits == Held(s) + s.permits
  {
    RunInv(states, steps, batch, k);
    assert Next(states[k], steps[k], states[k + 1]);
    if steps[k].Done? && states[k].waiters != [] && states[k].waiters[0] == Collector {
      assert states[k].waiting.Parked?;
    }
  }

  /** In every run the caller of waitAll goes its way: it takes a permit if one is free, parks if
      none is and goes on when it is handed one, and returns once it has them all. */
  lemma CollectorMoves(states: seq<State>, steps: seq<Step>, batch: nat, k: nat)
    requires IsRun(states, steps, batch) && k < |steps|
    ensures var s, t := states[k], states[k + 1];
      match steps[k]
      case WaitAll => t.finish && t.waiting == if s.finish then s.waiting else Running(0)
      case Collect =>
        s.waiting.Running? && Held(s) < batch
        && t.waiting == if s.permits > 0 then Running(Held(s) + 1) else Parked(Held(s))
      case Resume => s.waiting.Handed? && t.waiting == Running(Held(s))
      case Return => s.waiting == Running(batch) && t.waiting == Returned
      case Done => t.waiting == s.waiting || (s.waiting.Parked? && t.waiting == Handed(Held(s)))
      case _ => t.waiting == s.waiting
  {
    RunInv(states, steps, batch, k);
    assert Next(states[k], steps[k], states[k + 1]);
  }

  /** A later call of waitAll changes nothing and returns at once, with nothing in flight
      exactly when the permits that are free and those the first caller holds are all there
      are. */
  lemma LateWaitAllIff(states: seq<State>, steps: seq<Step>, batch: nat, k: nat)
    requires IsRun(states, steps, batch) && k < |steps| && steps[k] == WaitAll && states[k].finish
    ensures states[k + 1] == states[k]
    ensures states[k].granted + states[k].tasks == 0 <==> states[k].permits + Held(states[k]) == batch
  {
    RunInv(states, steps, batch, k);
    assert Next(states[k], steps[k], states[k + 1]);
  }

  /** A later call of waitAll only looks at the flag: it returns at once, with callbacks still
      in flight, for every batch size that admits any. */
  lemma LateWaitAllReturnsEarly(batch: nat) returns (states: seq<State>, steps: seq<Step>)
    requires batch > 0
    ensures IsRun(states, steps, batch) && |steps| == 4 && steps[3] == WaitAll
    ensures states[3].finish && states[4] == states[3] && states[4].tasks > 0
  {
    var s0 := Start(batch);
    var s1 := s0.(permits := batch - 1, granted := 1);
    var s2 := s1.(granted := 0, tasks := 1);
    var s3 := s2.(finish := true, waiting := Running(0));
    states := [s0, s1, s2, s3, s3];
    steps := [Schedule(0), Submit, WaitAll, WaitAll];
  }
}
