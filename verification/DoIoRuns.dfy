/** What holds of `doIo` in every interleaving, and the runs that show where it ends. */
module DoIoRuns {
  import opened DoIo

  /** Step `i` is a `delEvent` on a slot that holds registration `id`. */
  ghost predicate Deletes(states: seq<State>, steps: seq<Step>, i: nat, id: nat)
    requires i < |steps| && i < |states|
  {
    steps[i].DelEvent? && steps[i].key in states[i].slots && states[i].slots[steps[i].key].id == id
  }

  lemma {:induction false} DeletedByStep(states: seq<State>, steps: seq<Step>, k: nat, id: nat)
    requires IsRun(states, steps) && k < |states|
    ensures id in states[k].deleted <==> exists i: nat :: i < k && Deletes(states, steps, i, id)
  {
    hide Next;
    if k == 0 {
      assert states[0].deleted == {};
    } else {
      DeletedByStep(states, steps, k - 1, id);
      DeletedStep(states[k - 1], steps[k - 1], id);
      assert Deletes(states, steps, k - 1, id) <==>
        steps[k - 1].DelEvent? && states[k - 1].slots[steps[k - 1].key].id == id;
    }
  }

  lemma DeletedStep(s: State, step: Step, id: nat)
    requires Enabled(s, step)
    ensures id in Next(s, step).deleted <==> id in s.deleted || (step.DelEvent? && s.slots[step.key].id == id)
  {
    hide DoDelete, DoAfterWake, DoAddFails, Fire;
    match step {
      case AddEvent(f, ok) => if !ok { AddFailsDeletes(s, f); }
      case Trigger(key) => FireDeletes(s, key);
      case DelEvent(key) => DeleteDeletes(s, key);
      case CallbackCancel(t, ok) => FireDeletes(SetTimer(s, t, Over), s.timers[t].key);
      case AfterWake(f) => AfterWakeDeletes(s, f);
      case _ =>
    }
  }

  lemma AddFailsDeletes(s: State, f: Fiber)
    requires f in s.fibers && s.fibers[f].Armed?
    ensures DoAddFails(s, f).deleted == s.deleted
  {}

  lemma FireDeletes(s: State, key: Key)
    ensures Fire(s, key).deleted == s.deleted
  {}

  lemma DeleteDeletes(s: State, key: Key)
    requires key in s.slots
    ensures DoDelete(s, key).deleted == s.deleted + {s.slots[key].id}
  {}

  lemma AfterWakeDeletes(s: State, f: Fiber)
    requires f in s.fibers && s.fibers[f].Woken?
    ensures DoAfterWake(s, f).deleted == s.deleted
  {}

  /** In every interleaving a fiber that waits in `doIo` is either still registered or
      already queued, never both, and it is neither exactly when a `delEvent` hit its slot
      while that held this registration. */
  lemma WaitingIsRegisteredOrQueued(states: seq<State>, steps: seq<Step>, k: nat, f: Fiber)
    requires IsRun(states, steps) && k < |states| && IsWaiting(states[k], f)
    ensures !(Registered(states[k], f) && Queued(states[k], f))
    ensures !Registered(states[k], f) && !Queued(states[k], f) <==>
      exists i: nat :: i < k && Deletes(states, steps, i, states[k].fibers[f].id)
  {
    hide IsRun, CallInv, TimedInv;
    RunInv(states, steps, k);
    DeletedByStep(states, steps, k, states[k].fibers[f].id);
  }

  /** In every interleaving each `addEvent` puts its fiber into the queue at most once. */
  lemma QueuedAtMostOnce(states: seq<State>, steps: seq<Step>, k: nat, i: nat, j: nat)
    requires IsRun(states, steps) && k < |states| && i < j < |states[k].queued|
    ensures states[k].queued[i].id != states[k].queued[j].id
  {
    RunInv(states, steps, k);
  }

  /** `doIo` fails with `ETIMEDOUT` only after the callback of a timer that it
      armed itself ran, even if that callback was copied out before the wake-up. */
  lemma TimeoutIsOwn(states: seq<State>, steps: seq<Step>, k: nat, c: Call)
    requires IsRun(states, steps) && k < |states|
    requires c in states[k].ended && states[k].ended[c].TimedOut?
    ensures c in states[k].cancelled && states[k].cancelled[c] in states[k].timers
    ensures states[k].timers[states[k].cancelled[c]].call == c
    ensures !states[k].timers[states[k].cancelled[c]].phase.InSet?
  {
    RunInv(states, steps, k);
  }

  /** No timer stays in the timer set once its `doIo` has returned or retries the call. */
  lemma NoTimerOutlivesItsWait(states: seq<State>, steps: seq<Step>, k: nat, t: TimerId)
    requires IsRun(states, steps) && k < |states| && t in states[k].timers && states[k].timers[t].phase.InSet?
    ensures var f := states[k].timers[t].fiber;
      f in states[k].fibers && HasTimer(states[k].fibers[f], t)
  {
    RunInv(states, steps, k);
  }

  /** Some callback of the call that `f` is in has still to reach `cancelEvent` for the slot
      that `f` waits on. */
  ghost predicate TimeoutAhead(s: State, f: Fiber)
    requires IsWaiting(s, f)
  {
    exists t :: t in s.timers && Reaches(s, t, s.fibers[f].call, s.fibers[f].key)
  }

  /** The callback of timer `t` will call `cancelEvent`: it is past its check, or has still to
      make it and will find the call unmarked. */
  predicate Reaches(s: State, t: TimerId, c: Call, key: Key)
    requires t in s.timers
  {
    && s.timers[t].call == c && s.timers[t].key == key
    && (s.timers[t].phase.Cancelling? || (!s.timers[t].phase.Over? && c !in s.cancelled))
  }

  /** In every interleaving a timed wait has a timeout ahead of it exactly when its call is
      not marked, or the callback that marked it has still to cancel this very slot. */
  lemma TimeoutAheadIff(states: seq<State>, steps: seq<Step>, k: nat, f: Fiber)
    requires IsRun(states, steps) && k < |states| && IsWaiting(states[k], f) && states[k].fibers[f].timed
    ensures var s := states[k]; var c := s.fibers[f].call;
      TimeoutAhead(s, f) <==>
        (c in s.cancelled ==> s.cancelled[c] in s.timers && Reaches(s, s.cancelled[c], c, s.fibers[f].key))
  {
    hide IsRun, WaitInv, CallsOwned, TimersOwned, MarksJustified;
    RunInv(states, steps, k);
    var s := states[k];
    assert InWait(s, f) && TimerOf(s, s.fibers[f]);
    if s.fibers[f].call !in s.cancelled {
      assert Reaches(s, s.fibers[f].timer.value, s.fibers[f].call, s.fibers[f].key);
    }
  }

  /** Timers of call `c` only grow older, and marks stay. */
  ghost predicate Ages(s: State, t: State, c: Call) {
    && (c in s.cancelled ==> c in t.cancelled)
    && (forall x :: x in t.timers && t.timers[x].call == c ==>
          x in s.timers && Older(s.timers[x], t.timers[x], c in s.cancelled))
  }

  predicate Older(a: Timer, b: Timer, marked: bool) {
    && b.call == a.call && b.key == a.key
    && (a.phase.Over? ==> b.phase.Over?)
    && (b.phase.Cancelling? ==> a.phase.Cancelling? || !marked)
  }

  lemma AgesSame(s: State, t: State, c: Call)
    requires t.timers == s.timers && t.cancelled == s.cancelled
    ensures Ages(s, t, c)
  {}

  lemma AgesTimer(s: State, t: TimerId, p: TimerPhase, c: Call)
    requires t in s.timers && (s.timers[t].phase.Over? ==> p.Over?) && !p.Cancelling?
    ensures Ages(s, SetTimer(s, t, p), c)
  {}

  lemma AgesCheck(s: State, t: TimerId, c: Call)
    requires t in s.timers && s.timers[t].phase.CopiedOut?
    ensures Ages(s, DoCheck(s, t), c)
  {}

  lemma AgesCancel(s: State, timer: Option<TimerId>, t: State, c: Call)
    requires t.timers == CancelTimer(s, timer).timers && t.cancelled == s.cancelled
    ensures Ages(s, t, c)
  {}

  lemma AgesStep(s: State, step: Step, c: Call)
    requires Enabled(s, step) && (step.AddTimer? ==> s.fibers[step.f].call != c)
    ensures Ages(s, Next(s, step), c)
  {
    hide Ages;
    match step {
      case AddTimer(f) => AgesAddTimer(s, f, c);
      case AddEvent(f, ok) =>
        if ok {
          AgesSame(s, DoRegister(s, f), c);
        } else {
          AgesCancel(s, s.fibers[f].timer, DoAddFails(s, f), c);
        }
      case Expire(t) => AgesTimer(s, t, CopiedOut, c);
      case CallbackCheck(t) => AgesCheck(s, t, c);
      case CallbackCancel(t, ok) => AgesFired(s, t, ok, c);
      case AfterWake(f) => AgesCancel(s, s.fibers[f].timer, DoAfterWake(s, f), c);
      case _ => AgesSame(s, Next(s, step), c);
    }
  }

  lemma AgesAddTimer(s: State, f: Fiber, c: Call)
    requires f in s.fibers && s.fibers[f].Blocked? && s.fibers[f].call != c
    ensures Ages(s, DoAddTimer(s, f), c)
  {}

  lemma AgesFired(s: State, t: TimerId, ok: bool, c: Call)
    requires t in s.timers && s.timers[t].phase.Cancelling?
    ensures Ages(s, Next(s, CallbackCancel(t, ok)), c)
  {}

  /** A wait without a timeout ahead never gets one. */
  lemma TimeoutStaysLost(s: State, step: Step, f: Fiber)
    requires Inv(s) && Enabled(s, step) && IsWaiting(s, f) && s.fibers[f].timed && !TimeoutAhead(s, f)
    requires IsWaiting(Next(s, step), f)
    ensures !TimeoutAhead(Next(s, step), f)
  {
    hide WaitInv, TimersOwned, MarksJustified, Next;
    assert InWait(s, f) && TimerOf(s, s.fibers[f]) && InCall(s, f);
    assert Reaches(s, s.fibers[f].timer.value, s.fibers[f].call, s.fibers[f].key) || s.fibers[f].call in s.cancelled;
    SameCall(s, step, f);
    AgesStep(s, step, s.fibers[f].call);
  }

  /** A step leaves a waiting fiber alone, parks it, or ends its wait. */
  lemma SameCall(s: State, step: Step, f: Fiber)
    requires Enabled(s, step) && IsWaiting(s, f) && IsWaiting(Next(s, step), f)
    ensures Next(s, step).fibers[f].call == s.fibers[f].call && Next(s, step).fibers[f].key == s.fibers[f].key
    ensures step.AddTimer? ==> step.f != f
  {
    match step {
      case Resume(i) => ResumeMoves(s, i, f);
      case AfterWake(g) => AfterWakeMoves(s, g);
      case AddEvent(g, ok) => AddEventMoves(s, g, ok);
      case _ => OtherMoves(s, step, f);
    }
  }

  lemma ResumeMoves(s: State, i: nat, f: Fiber)
    requires Enabled(s, Resume(i)) && IsWaiting(s, f) && IsWaiting(DoResume(s, i), f)
    ensures DoResume(s, i).fibers[f] == s.fibers[f]
  {}

  lemma AfterWakeMoves(s: State, g: Fiber)
    requires Enabled(s, AfterWake(g))
    ensures forall f :: f in s.fibers && f != g ==>
      f in DoAfterWake(s, g).fibers && DoAfterWake(s, g).fibers[f] == s.fibers[f]
  {}

  lemma AddEventMoves(s: State, g: Fiber, ok: bool)
    requires Enabled(s, AddEvent(g, ok))
    ensures var t := Next(s, AddEvent(g, ok));
      forall f :: f in s.fibers && f != g ==> f in t.fibers && t.fibers[f] == s.fibers[f]
  {}

  lemma OtherMoves(s: State, step: Step, f: Fiber)
    requires Enabled(s, step) && IsWaiting(s, f)
    requires !step.Resume? && !step.AfterWake? && !step.AddEvent?
    ensures f in Next(s, step).fibers && Next(s, step).fibers[f].Waiting?
    ensures Next(s, step).fibers[f].call == s.fibers[f].call && Next(s, step).fibers[f].key == s.fibers[f].key
    ensures step.AddTimer? ==> step.f != f
  {
    hide DoCheck, Fire;
    match step {
      case Trigger(key) => FireMoves(s, key);
      case CallbackCheck(t) => CheckMoves(s, t);
      case CallbackCancel(t, ok) => FireMoves(SetTimer(s, t, Over), s.timers[t].key);
      case _ =>
    }
  }

  lemma FireMoves(s: State, key: Key)
    ensures Fire(s, key).fibers == s.fibers
  {}

  lemma CheckMoves(s: State, t: TimerId)
    requires t in s.timers
    ensures DoCheck(s, t).fibers == s.fibers
  {}

  const KEY := Key(7, Read)

  ghost predicate Steps(s: State, step: Step, t: State) {
    Enabled(s, step) && t == Next(s, step)
  }

  /** A concrete run in which `delEvent` strands a parked fiber: it is neither
      registered nor queued. */
  lemma DelEventStrands() returns (states: seq<State>, steps: seq<Step>)
    ensures IsRun(states, steps) && IsWaiting(states[|steps|], 0) && states[|steps|].fibers[0].parked
    ensures !Registered(states[|steps|], 0) && !Queued(states[|steps|], 0)
  {
    hide Next, Enabled;
    states := [Strand(0), Strand(1), Strand(2), Strand(3), Strand(4), Strand(5), Strand(6)];
    steps := [Enter(0, KEY, false), Syscall(0, true), AddTimer(0), AddEvent(0, true), Park(0), DelEvent(KEY)];
    StartsEmpty(Strand(0));
    StrandEnters();
    StrandRegisters();
    StrandDeletes();
  }

  lemma StartsEmpty(s: State)
    requires s == State(map[0 := Outside], map[], [], map[], map[], map[], [], {}, 0, 0, 0)
    ensures s == Init(s.fibers.Keys)
  {}

  /** The states of that run. */
  ghost function Strand(k: nat): State {
    if k == 0 then
      State(map[0 := Outside], map[], [], map[], map[], map[], [], {}, 0, 0, 0)
    else if k == 1 then
      State(map[0 := Trying(0, KEY, false)], map[], [], map[], map[], map[], [], {}, 1, 0, 0)
    else if k == 2 then
      State(map[0 := Blocked(0, KEY, false)], map[], [], map[], map[], map[], [], {}, 1, 0, 0)
    else if k == 3 then
      State(map[0 := Armed(0, KEY, false, None)], map[], [], map[], map[], map[], [], {}, 1, 0, 0)
    else if k == 4 then
      State(map[0 := Waiting(0, KEY, false, None, 0, false)], map[KEY := Registration(0, 0)], [], map[], map[],
            map[], [], {}, 1, 0, 1)
    else if k == 5 then
      State(map[0 := Waiting(0, KEY, false, None, 0, true)], map[KEY := Registration(0, 0)], [], map[], map[],
            map[], [], {}, 1, 0, 1)
    else
      State(map[0 := Waiting(0, KEY, false, None, 0, true)], map[], [], map[], map[], map[], [], {0}, 1, 0, 1)
  }

  lemma StrandEnters()
    ensures Steps(Strand(0), Enter(0, KEY, false), Strand(1))
    ensures Steps(Strand(1), Syscall(0, true), Strand(2))
  {}

  lemma StrandRegisters()
    ensures Steps(Strand(2), AddTimer(0), Strand(3))
    ensures Steps(Strand(3), AddEvent(0, true), Strand(4))
  {}

  lemma StrandDeletes()
    ensures Steps(Strand(4), Park(0), Strand(5))
    ensures Steps(Strand(5), DelEvent(KEY), Strand(6))
  {}

  /** A concrete run that loses a timeout: a callback copied out during the first wait marks
      the call after the wake-up test, and the timer of the second wait then does nothing.  The
      fiber is parked and registered, its wait is timed, and no timeout is ahead of it. */
  lemma TimeoutIsLost() returns (states: seq<State>, steps: seq<Step>)
    ensures IsRun(states, steps) && IsWaiting(states[|steps|], 0)
    ensures states[|steps|].fibers[0].parked && states[|steps|].fibers[0].timed
    ensures Registered(states[|steps|], 0) && !TimeoutAhead(states[|steps|], 0)
  {
    hide Next, Enabled, Lost, Init, TimeoutAhead, Registered;
    LostEnds();
    states := [Lost(0), Lost(1), Lost(2), Lost(3), Lost(4), Lost(5), Lost(6), Lost(7), Lost(8), Lost(9),
               Lost(10), Lost(11), Lost(12), Lost(13), Lost(14), Lost(15), Lost(16), Lost(17)];
    steps := [Enter(0, KEY, true), Syscall(0, true), AddTimer(0), AddEvent(0, true), Park(0), Expire(0),
              Trigger(KEY), Resume(0), AfterWake(0), CallbackCheck(0), CallbackCancel(0, true),
              Syscall(0, true), AddTimer(0), AddEvent(0, true), Park(0), Expire(1), CallbackCheck(1)];
    LostEnters();
    LostRegisters();
    LostExpires();
    LostFires();
    LostWakes();
    LostChecksWake();
    LostMarks();
    LostRetries();
    LostArmsAgain();
    LostRegistersAgain();
    LostParksAgain();
    LostExpiresAgain();
    LostSkips();
  }

  lemma LostEnds()
    ensures Lost(0) == Init(Lost(0).fibers.Keys)
    ensures IsWaiting(Lost(17), 0) && Lost(17).fibers[0].parked && Lost(17).fibers[0].timed
    ensures Registered(Lost(17), 0) && !TimeoutAhead(Lost(17), 0)
  {
    StartsEmpty(Lost(0));
  }

  /** The states of that run. */
  ghost function Lost(k: nat): State {
    if k == 0 then
      State(map[0 := Outside], map[], [], map[], map[], map[], [], {}, 0, 0, 0)
    else if k == 1 then
      State(map[0 := Trying(0, KEY, true)], map[], [], map[], map[], map[], [], {}, 1, 0, 0)
    else if k == 2 then
      State(map[0 := Blocked(0, KEY, true)], map[], [], map[], map[], map[], [], {}, 1, 0, 0)
    else if k == 3 then
      State(map[0 := Armed(0, KEY, true, Some(0))], map[], [], map[0 := Timer(0, 0, KEY, InSet)], map[], map[],
            [], {}, 1, 1, 0)
    else if k == 4 then
      State(map[0 := Waiting(0, KEY, true, Some(0), 0, false)], map[KEY := Registration(0, 0)], [],
            map[0 := Timer(0, 0, KEY, InSet)], map[], map[], [], {}, 1, 1, 1)
    else if k == 5 then
      State(map[0 := Waiting(0, KEY, true, Some(0), 0, true)], map[KEY := Registration(0, 0)], [],
            map[0 := Timer(0, 0, KEY, InSet)], map[], map[], [], {}, 1, 1, 1)
    else if k == 6 then
      State(map[0 := Waiting(0, KEY, true, Some(0), 0, true)], map[KEY := Registration(0, 0)], [],
            map[0 := Timer(0, 0, KEY, CopiedOut)], map[], map[], [], {}, 1, 1, 1)
    else if k == 7 then
      State(map[0 := Waiting(0, KEY, true, Some(0), 0, true)], map[], [Registration(0, 0)],
            map[0 := Timer(0, 0, KEY, CopiedOut)], map[], map[], [Registration(0, 0)], {}, 1, 1, 1)
    else if k == 8 then
      State(map[0 := Woken(0, KEY, true, Some(0))], map[], [], map[0 := Timer(0, 0, KEY, CopiedOut)], map[],
            map[], [Registration(0, 0)], {}, 1, 1, 1)
    else if k == 9 then
      State(map[0 := Trying(0, KEY, true)], map[], [], map[0 := Timer(0, 0, KEY, CopiedOut)], map[], map[],
            [Registration(0, 0)], {}, 1, 1, 1)
    else if k == 10 then
      State(map[0 := Trying(0, KEY, true)], map[], [], map[0 := Timer(0, 0, KEY, Cancelling)], map[0 := 0],
            map[], [Registration(0, 0)], {}, 1, 1, 1)
    else if k == 11 then
      State(map[0 := Trying(0, KEY, true)], map[], [], map[0 := Timer(0, 0, KEY, Over)], map[0 := 0], map[],
            [Registration(0, 0)], {}, 1, 1, 1)
    else if k == 12 then
      State(map[0 := Blocked(0, KEY, true)], map[], [], map[0 := Timer(0, 0, KEY, Over)], map[0 := 0], map[],
            [Registration(0, 0)], {}, 1, 1, 1)
    else if k == 13 then
      State(map[0 := Armed(0, KEY, true, Some(1))], map[], [],
            map[0 := Timer(0, 0, KEY, Over), 1 := Timer(0, 0, KEY, InSet)], map[0 := 0], map[],
            [Registration(0, 0)], {}, 1, 2, 1)
    else if k == 14 then
      State(map[0 := Waiting(0, KEY, true, Some(1), 1, false)], map[KEY := Registration(0, 1)], [],
            map[0 := Timer(0, 0, KEY, Over), 1 := Timer(0, 0, KEY, InSet)], map[0 := 0], map[],
            [Registration(0, 0)], {}, 1, 2, 2)
    else if k == 15 then
      State(map[0 := Waiting(0, KEY, true, Some(1), 1, true)], map[KEY := Registration(0, 1)], [],
            map[0 := Timer(0, 0, KEY, Over), 1 := Timer(0, 0, KEY, InSet)], map[0 := 0], map[],
            [Registration(0, 0)], {}, 1, 2, 2)
    else if k == 16 then
      State(map[0 := Waiting(0, KEY, true, Some(1), 1, true)], map[KEY := Registration(0, 1)], [],
            map[0 := Timer(0, 0, KEY, Over), 1 := Timer(0, 0, KEY, CopiedOut)], map[0 := 0], map[],
            [Registration(0, 0)], {}, 1, 2, 2)
    else
      State(map[0 := Waiting(0, KEY, true, Some(1), 1, true)], map[KEY := Registration(0, 1)], [],
            map[0 := Timer(0, 0, KEY, Over), 1 := Timer(0, 0, KEY, Over)], map[0 := 0], map[],
            [Registration(0, 0)], {}, 1, 2, 2)
  }

  lemma LostEnters()
    ensures Steps(Lost(0), Enter(0, KEY, true), Lost(1))
    ensures Steps(Lost(1), Syscall(0, true), Lost(2))
  {}

  lemma LostRegisters()
    ensures Steps(Lost(2), AddTimer(0), Lost(3))
    ensures Steps(Lost(3), AddEvent(0, true), Lost(4))
  {}

  lemma LostExpires()
    ensures Steps(Lost(4), Park(0), Lost(5))
    ensures Steps(Lost(5), Expire(0), Lost(6))
  {}

  lemma LostFires()
    ensures Steps(Lost(6), Trigger(KEY), Lost(7))
  {}

  lemma LostWakes()
    ensures Steps(Lost(7), Resume(0), Lost(8))
  {}

  lemma LostChecksWake()
    ensures Steps(Lost(8), AfterWake(0), Lost(9))
  {}

  lemma LostMarks()
    ensures Steps(Lost(9), CallbackCheck(0), Lost(10))
  {}

  lemma LostRetries()
    ensures Steps(Lost(10), CallbackCancel(0, true), Lost(11))
    ensures Steps(Lost(11), Syscall(0, true), Lost(12))
  {}

  lemma LostArmsAgain()
    ensures Steps(Lost(12), AddTimer(0), Lost(13))
  {}

  lemma LostRegistersAgain()
    ensures Steps(Lost(13), AddEvent(0, true), Lost(14))
  {}

  lemma LostParksAgain()
    ensures Steps(Lost(14), Park(0), Lost(15))
  {}

  lemma LostExpiresAgain()
    ensures Steps(Lost(15), Expire(1), Lost(16))
  {}

  lemma LostSkips()
    ensures Steps(Lost(16), CallbackCheck(1), Lost(17))
  {}

  // ------------------------------------------------------------ what each step does to whom

  /** What happens to one fiber: it follows the path of `doIo` and moves by its own steps only.
      A wake-up whose call is marked ends the call, and any other one tries again. */
  lemma FiberMoves(states: seq<State>, steps: seq<Step>, k: nat, f: Fiber)
    requires IsRun(states, steps) && k < |steps| && f in states[k].fibers
    ensures f in states[k + 1].fibers
    ensures var s, p, q := states[k], states[k].fibers[f], states[k + 1].fibers[f];
      match steps[k]
      case Enter(g, key, timed) => q == if g == f then Trying(s.nextCall, key, timed) else p
      case Syscall(g, again) =>
        q == if g != f then p else if again then Blocked(p.call, p.key, p.timed) else Outside
      case AddTimer(g) =>
        q == if g != f then p else Armed(p.call, p.key, p.timed, if p.timed then Some(s.nextTimer) else None)
      case AddEvent(g, ok) =>
        q == if g != f then p else if ok then Waiting(p.call, p.key, p.timed, p.timer, s.nextId, false) else Outside
      case Park(g) => q == if g != f then p else Waiting(p.call, p.key, p.timed, p.timer, p.id, true)
      case Resume(i) => q == if s.queue[i].fiber != f then p else Woken(p.call, p.key, p.timed, p.timer)
      case AfterWake(g) =>
        q == if g != f then p else if p.call in s.cancelled then Outside else Trying(p.call, p.key, p.timed)
      case _ => q == p
  {
    assert Enabled(states[k], steps[k]) && states[k + 1] == Next(states[k], steps[k]);
  }

  /** What happens to one timer: it leaves the set by expiring, or when the fiber that armed it
      wakes up or cannot register; its callback goes on to `cancelEvent` exactly when it finds
      its call going on and unmarked. */
  lemma TimerMoves(states: seq<State>, steps: seq<Step>, k: nat, t: TimerId)
    requires IsRun(states, steps) && k < |steps| && t in states[k].timers
    ensures t in states[k + 1].timers
    ensures var s, p, q := states[k], states[k].timers[t], states[k + 1].timers[t];
      && q.fiber == p.fiber && q.call == p.call && q.key == p.key
      && match steps[k]
         case Expire(u) => q.phase == if u == t then CopiedOut else p.phase
         case CallbackCheck(u) =>
           q.phase == if u != t then p.phase
             else if p.call in s.ended || p.call in s.cancelled then Over else Cancelling
         case CallbackCancel(u, _) => q.phase == if u == t then Over else p.phase
         case AddEvent(f, ok) =>
           q.phase == if !ok && s.fibers[f].timer == Some(t) && p.phase == InSet then Over else p.phase
         case AfterWake(f) => q.phase == if s.fibers[f].timer == Some(t) && p.phase == InSet then Over else p.phase
         case _ => q.phase == p.phase
  {
    hide Next, WaitInv, TimedInv, CallsOwned, MarksJustified, Fire, DoCheck, DoAddTimer, DoAfterWake, DoAddFails;
    RunInv(states, steps, k);
    var s, step := states[k], steps[k];
    assert Enabled(s, step) && states[k + 1] == Next(s, step);
    match step {
      case AddTimer(f) => ArmedTimer(s, f, t);
      case AddEvent(f, ok) => RegisteringTimer(s, f, ok, t);
      case CallbackCheck(u) => CheckedTimer(s, u, t);
      case AfterWake(f) => WokenTimer(s, f, t);
      case _ => OtherTimer(s, step, t);
    }
  }

  lemma ArmedTimer(s: State, f: Fiber, t: TimerId)
    requires Enabled(s, AddTimer(f)) && t in s.timers && t < s.nextTimer
    ensures t in Next(s, AddTimer(f)).timers && Next(s, AddTimer(f)).timers[t] == s.timers[t]
  {}

  lemma RegisteringTimer(s: State, f: Fiber, ok: bool, t: TimerId)
    requires Enabled(s, AddEvent(f, ok)) && t in s.timers
    ensures t in Next(s, AddEvent(f, ok)).timers
    ensures var own := s.fibers[f].timer == Some(t) && s.timers[t].phase == InSet;
      Next(s, AddEvent(f, ok)).timers[t] == s.timers[t].(phase := if !ok && own then Over else s.timers[t].phase)
  {}

  lemma CheckedTimer(s: State, u: TimerId, t: TimerId)
    requires Enabled(s, CallbackCheck(u)) && t in s.timers
    ensures t in Next(s, CallbackCheck(u)).timers
    ensures var p, over := s.timers[t], s.timers[t].call in s.ended || s.timers[t].call in s.cancelled;
      Next(s, CallbackCheck(u)).timers[t]
      == p.(phase := if u != t then p.phase else if over then Over else Cancelling)
  {}

  lemma WokenTimer(s: State, f: Fiber, t: TimerId)
    requires Enabled(s, AfterWake(f)) && t in s.timers
    ensures t in Next(s, AfterWake(f)).timers
    ensures var own := s.fibers[f].timer == Some(t) && s.timers[t].phase == InSet;
      Next(s, AfterWake(f)).timers[t] == s.timers[t].(phase := if own then Over else s.timers[t].phase)
  {}

  lemma OtherTimer(s: State, step: Step, t: TimerId)
    requires Enabled(s, step) && t in s.timers
    requires !step.AddTimer? && !step.AddEvent? && !step.CallbackCheck? && !step.AfterWake?
    ensures t in Next(s, step).timers
    ensures Next(s, step).timers[t]
         == s.timers[t].(phase := if step == Expire(t) then CopiedOut
                                  else if step.CallbackCancel? && step.t == t then Over else s.timers[t].phase)
  {}

  /** A timer comes into being when a fiber whose call is timed is about to register. */
  lemma TimerBegins(states: seq<State>, steps: seq<Step>, k: nat, t: TimerId)
    requires IsRun(states, steps) && k < |steps| && t !in states[k].timers
    ensures t in states[k + 1].timers <==>
      steps[k].AddTimer? && states[k].fibers[steps[k].f].timed && t == states[k].nextTimer
    ensures t in states[k + 1].timers ==>
      var f := steps[k].f;
      states[k + 1].timers[t] == Timer(f, states[k].fibers[f].call, states[k].fibers[f].key, InSet)
  {
    assert Enabled(states[k], steps[k]) && states[k + 1] == Next(states[k], steps[k]);
  }

  /** What happens to one slot: a fiber that registers takes it; readiness, a timeout that the
      kernel lets through and `delEvent` empty it. */
  lemma SlotMoves(states: seq<State>, steps: seq<Step>, k: nat, key: Key)
    requires IsRun(states, steps) && k < |steps|
    ensures var s, t, step := states[k], states[k + 1], steps[k];
      if step.AddEvent? && step.ok && s.fibers[step.f].key == key then
        key !in s.slots && key in t.slots && t.slots[key] == Registration(step.f, s.nextId)
      else if step == Trigger(key) || step == DelEvent(key) || Cancels(s, step, key) then key !in t.slots
      else (key in t.slots <==> key in s.slots) && (key in s.slots ==> t.slots[key] == s.slots[key])
  {
    assert Enabled(states[k], steps[k]) && states[k + 1] == Next(states[k], steps[k]);
  }

  /** The step is a callback whose `cancelEvent` reaches this slot. */
  predicate Cancels(s: State, step: Step, key: Key) {
    step.CallbackCancel? && step.ok && step.t in s.timers && s.timers[step.t].key == key
  }

  /** What happens to the queue: it gets the registration of a taken slot on readiness and when a
      callback cancels it, and nothing at any other step; a worker takes any entry out. */
  lemma QueueMoves(states: seq<State>, steps: seq<Step>, k: nat, key: Key)
    requires IsRun(states, steps) && k < |steps|
    ensures var s, t, step := states[k], states[k + 1], steps[k];
      && ((step == Trigger(key) || Cancels(s, step, key)) && key in s.slots ==>
            t.queue == s.queue + [s.slots[key]] && t.queued == s.queued + [s.slots[key]])
      && ((step.CallbackCancel? && (!step.ok || s.timers[step.t].key !in s.slots)) ==>
            t.queue == s.queue && t.queued == s.queued)
      && (!step.Trigger? && !step.CallbackCancel? ==>
            t.queued == s.queued
            && t.queue == if step.Resume? then s.queue[..step.i] + s.queue[step.i + 1..] else s.queue)
  {
    assert Enabled(states[k], steps[k]) && states[k + 1] == Next(states[k], steps[k]);
  }

  /** In every interleaving a fiber that waits registered on a slot is queued, once, by the
      registration it made, when the slot becomes ready and when any callback cancels it,
      whatever call the fiber is in. */
  lemma WokenBySlot(states: seq<State>, steps: seq<Step>, k: nat, f: Fiber)
    requires IsRun(states, steps) && k < |steps| && IsWaiting(states[k], f) && Registered(states[k], f)
    requires steps[k] == Trigger(states[k].fibers[f].key) || Cancels(states[k], steps[k], states[k].fibers[f].key)
    ensures states[k + 1].fibers == states[k].fibers && !Registered(states[k + 1], f) && Queued(states[k + 1], f)
    ensures states[k + 1].queue == states[k].queue + [Registration(f, states[k].fibers[f].id)]
    ensures states[k + 1].queued == states[k].queued + [Registration(f, states[k].fibers[f].id)]
  {
    hide Next, Enabled;
    var key := states[k].fibers[f].key;
    QueueMoves(states, steps, k, key);
    SlotMoves(states, steps, k, key);
    FibersStay(states[k], steps[k]);
    assert Enabled(states[k], steps[k]) && states[k + 1] == Next(states[k], steps[k]);
    assert Registration(f, states[k].fibers[f].id) in states[k + 1].queue by {
      assert states[k + 1].queue[|states[k].queue|] == Registration(f, states[k].fibers[f].id);
    }
  }

  lemma FibersStay(s: State, step: Step)
    requires Enabled(s, step) && (step.Trigger? || step.CallbackCancel?)
    ensures Next(s, step).fibers == s.fibers
  {}

  /** The step ends call `c` that way. */
  predicate Ends(s: State, step: Step, c: Call, ending: Ending) {
    && (step.Syscall? || step.AddEvent? || step.AfterWake?)
    && InCall(s, step.f) && s.fibers[step.f].call == c
    && match ending
       case Completed => step.Syscall? && !step.again
       case AddFailed => step.AddEvent? && !step.ok
       case TimedOut => step.AfterWake? && c in s.cancelled
  }

  /** In every interleaving a call has ended in a way exactly when one of its steps ended it that
      way: a system call that does not block, a registration that fails, or a wake-up that finds
      the call marked. */
  lemma {:induction false} EndedIff(states: seq<State>, steps: seq<Step>, k: nat, c: Call, ending: Ending)
    requires IsRun(states, steps) && k < |states|
    ensures c in states[k].ended && states[k].ended[c] == ending <==>
      exists i: nat :: i < k && Ends(states[i], steps[i], c, ending)
  {
    hide Next, Ends, WaitInv, TimedInv, TimersOwned, MarksJustified;
    if k == 0 {
      assert states[0].ended == map[];
    } else {
      EndedIff(states, steps, k - 1, c, ending);
      RunInv(states, steps, k - 1);
      assert Enabled(states[k - 1], steps[k - 1]) && states[k] == Next(states[k - 1], steps[k - 1]);
      EndedStep(states[k - 1], steps[k - 1], c, ending);
    }
  }

  lemma EndedStep(s: State, step: Step, c: Call, ending: Ending)
    requires Enabled(s, step) && CallsOwned(s)
    ensures c in Next(s, step).ended && Next(s, step).ended[c] == ending <==>
      (c in s.ended && s.ended[c] == ending) || Ends(s, step, c, ending)
  {
    hide DoSyscall, DoAddFails, DoAfterWake;
    match step {
      case Syscall(f, again) => SyscallEnds(s, f, again);
      case AddEvent(f, ok) => AddFailsEnds(s, f);
      case AfterWake(f) => AfterWakeEnds(s, f);
      case _ =>
    }
  }

  lemma SyscallEnds(s: State, f: Fiber, again: bool)
    requires f in s.fibers && s.fibers[f].Trying?
    ensures DoSyscall(s, f, again).ended == if again then s.ended else s.ended[s.fibers[f].call := Completed]
  {}

  lemma AddFailsEnds(s: State, f: Fiber)
    requires f in s.fibers && s.fibers[f].Armed?
    ensures DoAddFails(s, f).ended == s.ended[s.fibers[f].call := AddFailed]
  {}

  lemma AfterWakeEnds(s: State, f: Fiber)
    requires f in s.fibers && s.fibers[f].Woken?
    ensures DoAfterWake(s, f).ended
         == if s.fibers[f].call in s.cancelled then s.ended[s.fibers[f].call := TimedOut] else s.ended
  {}

  /** The step is the check of the callback of timer `t`, and finds its call `c` going on and
      unmarked. */
  predicate Marks(s: State, step: Step, c: Call, t: TimerId) {
    && step == CallbackCheck(t) && t in s.timers && s.timers[t].call == c
    && c !in s.ended && c !in s.cancelled
  }

  /** In every interleaving a call is marked by a timer exactly when that timer's callback made
      its check while the call went on and was not marked yet. */
  lemma {:induction false} MarkedIff(states: seq<State>, steps: seq<Step>, k: nat, c: Call, t: TimerId)
    requires IsRun(states, steps) && k < |states|
    ensures c in states[k].cancelled && states[k].cancelled[c] == t <==>
      exists i: nat :: i < k && Marks(states[i], steps[i], c, t)
  {
    hide Next, Marks;
    if k == 0 {
      assert states[0].cancelled == map[];
    } else {
      MarkedIff(states, steps, k - 1, c, t);
      assert Enabled(states[k - 1], steps[k - 1]) && states[k] == Next(states[k - 1], steps[k - 1]);
      MarkedStep(states[k - 1], steps[k - 1], c, t);
    }
  }

  lemma MarkedStep(s: State, step: Step, c: Call, t: TimerId)
    requires Enabled(s, step)
    ensures c in Next(s, step).cancelled && Next(s, step).cancelled[c] == t <==>
      (c in s.cancelled && s.cancelled[c] == t) || Marks(s, step, c, t)
  {
    hide DoCheck, DoAddFails, DoAfterWake, DoSyscall, DoAddTimer, DoRegister, DoResume, DoDelete, Fire;
    match step {
      case CallbackCheck(u) => CheckSetsMark(s, u);
      case _ => NoMarks(s, step);
    }
  }

  lemma CheckSetsMark(s: State, t: TimerId)
    requires t in s.timers
    ensures var c := s.timers[t].call;
      DoCheck(s, t).cancelled == if c in s.ended || c in s.cancelled then s.cancelled else s.cancelled[c := t]
  {}

  lemma NoMarks(s: State, step: Step)
    requires Enabled(s, step) && !step.CallbackCheck?
    ensures Next(s, step).cancelled == s.cancelled
  {
    hide DoAddFails, DoAfterWake, Fire;
    match step {
      case AddEvent(f, ok) => AddFailsMarks(s, f);
      case AfterWake(f) => AfterWakeMarks(s, f);
      case Trigger(key) => FireMarks(s, key);
      case CallbackCancel(t, ok) => FireMarks(SetTimer(s, t, Over), s.timers[t].key);
      case _ =>
    }
  }

  lemma AddFailsMarks(s: State, f: Fiber)
    requires f in s.fibers && s.fibers[f].Armed?
    ensures DoAddFails(s, f).cancelled == s.cancelled
  {}

  lemma AfterWakeMarks(s: State, f: Fiber)
    requires f in s.fibers && s.fibers[f].Woken?
    ensures DoAfterWake(s, f).cancelled == s.cancelled
  {}

  lemma FireMarks(s: State, key: Key)
    ensures Fire(s, key).cancelled == s.cancelled
  {}

  /** Calls, timers and registrations are numbered in the order in which they are made. */
  lemma NumbersMove(states: seq<State>, steps: seq<Step>, k: nat)
    requires IsRun(states, steps) && k < |steps|
    ensures var s, t, step := states[k], states[k + 1], steps[k];
      && t.nextCall == (if step.Enter? then s.nextCall + 1 else s.nextCall)
      && t.nextTimer == (if step.AddTimer? && s.fibers[step.f].timed then s.nextTimer + 1 else s.nextTimer)
      && t.nextId == (if step.AddEvent? && step.ok then s.nextId + 1 else s.nextId)
  {
    assert Enabled(states[k], steps[k]) && states[k + 1] == Next(states[k], steps[k]);
  }

  /** Nothing but a taken slot holds a fiber up: in every state each fiber has its next step
      open, a parked one as soon as it is queued, and each slot and timer has its own. */
  lemma NextStepIsOpen(states: seq<State>, steps: seq<Step>, k: nat, f: Fiber)
    requires IsRun(states, steps) && k < |states| && f in states[k].fibers
    ensures var s, p := states[k], states[k].fibers[f];
      match p
      case Outside => forall key, timed :: Enabled(s, Enter(f, key, timed))
      case Trying(_, _, _) => forall again :: Enabled(s, Syscall(f, again))
      case Blocked(_, _, _) => Enabled(s, AddTimer(f))
      case Armed(_, key, _, _) => key !in s.slots ==> forall ok :: Enabled(s, AddEvent(f, ok))
      case Waiting(_, key, _, _, _, parked) =>
        && (!parked ==> Enabled(s, Park(f)))
        && (parked && Queued(s, f) ==> exists i :: 0 <= i < |s.queue| && s.queue[i].fiber == f && Enabled(s, Resume(i)))
        && (Registered(s, f) ==> Enabled(s, Trigger(key)) && Enabled(s, DelEvent(key)))
      case Woken(_, _, _, _) => Enabled(s, AfterWake(f))
    ensures forall t :: t in states[k].timers ==>
      match states[k].timers[t].phase
      case InSet => Enabled(states[k], Expire(t))
      case CopiedOut => Enabled(states[k], CallbackCheck(t))
      case Cancelling => forall ok :: Enabled(states[k], CallbackCancel(t, ok))
      case Over => true
  {
    var s := states[k];
    if IsWaiting(s, f) && s.fibers[f].parked && Queued(s, f) {
      var i :| 0 <= i < |s.queue| && s.queue[i] == Wait(s, f);
      assert Enabled(s, Resume(i));
    }
  }

  // ------------------------------------------------------------ whose wait a timeout ends

  /** A fiber of the timer's own call waits, registered, on the slot that its callback cancels. */
  ghost predicate OwnWait(s: State, t: TimerId)
    requires t in s.timers
  {
    exists f :: IsWaiting(s, f) && Registered(s, f)
                && s.fibers[f].call == s.timers[t].call && s.fibers[f].key == s.timers[t].key
  }

  /** The step queues a fiber that is in another call. */
  ghost predicate WakesStranger(s: State, step: Step, c: Call)
    requires Enabled(s, step)
  {
    exists r: Registration ::
      Next(s, step).queued == s.queued + [r] && InCall(s, r.fiber) && s.fibers[r.fiber].call != c
  }

  /** In every interleaving the callback of a timer wakes a fiber of another call exactly when
      the kernel agrees, the slot is taken, and nobody of its own call is registered there.
      The other call is not marked by it. */
  lemma StrangerIsWokenIff(states: seq<State>, steps: seq<Step>, k: nat)
    requires IsRun(states, steps) && k < |steps| && steps[k].CallbackCancel?
    ensures var s, t := states[k], steps[k].t;
      && t in s.timers && states[k + 1].cancelled == s.cancelled
      && (WakesStranger(s, steps[k], s.timers[t].call) <==>
            steps[k].ok && s.timers[t].key in s.slots && !OwnWait(s, t))
  {
    RunInv(states, steps, k);
    CancelWakes(states[k], steps[k].t, steps[k].ok);
  }

  lemma CancelWakes(s: State, t: TimerId, ok: bool)
    requires SlotsOwned(s) && Enabled(s, CallbackCancel(t, ok))
    ensures WakesStranger(s, CallbackCancel(t, ok), s.timers[t].call) <==>
      ok && s.timers[t].key in s.slots && !OwnWait(s, t)
  {
    var key, after := s.timers[t].key, Next(s, CallbackCancel(t, ok));
    if ok && key in s.slots {
      var r := s.slots[key];
      assert after.queued == s.queued + [r] && IsWaiting(s, r.fiber) && Registered(s, r.fiber);
      forall q: Registration | after.queued == s.queued + [q]
        ensures q == r
      {
        assert (s.queued + [q])[|s.queued|] == q;
      }
    } else {
      assert forall q: Registration :: |s.queued + [q]| == |after.queued| + 1;
    }
  }

  /** A concrete run: the callback of a call that has returned already wakes another fiber,
      whose descriptor is not ready and whose wait has no timeout. */
  lemma StrangerIsWoken() returns (states: seq<State>, steps: seq<Step>)
    ensures IsRun(states, steps) && |steps| > 0
    ensures var last := |steps| - 1;
      && steps[last] == CallbackCancel(0, true) && states[last].timers[0].call in states[last].ended
      && WakesStranger(states[last], steps[last], states[last].timers[0].call)
    ensures IsWaiting(states[|steps|], 1) && Queued(states[|steps|], 1) && !states[|steps|].fibers[1].timed
  {
    hide Next, Enabled, Stray, StrayStep, Init, WakesStranger, Queued;
    states := seq(17, k requires 0 <= k < 17 => Stray(k));
    steps := seq(16, k requires 0 <= k < 16 => StrayStep(k));
    forall k | 0 <= k < 16
      ensures Enabled(states[k], steps[k]) && states[k + 1] == Next(states[k], steps[k])
    {
      StrayMoves(k);
    }
    StrayStarts();
    OtherStandsAside();
    OtherIsQueued();
  }

  /** The states of that run. */
  ghost function Stray(k: nat): State {
    if k == 0 then
      State(map[0 := Outside, 1 := Outside], map[], [], map[], map[], map[], [], {}, 0, 0, 0)
    else if k == 1 then
      State(map[0 := Trying(0, KEY, true), 1 := Outside], map[], [], map[], map[], map[], [], {}, 1, 0, 0)
    else if k == 2 then
      State(map[0 := Blocked(0, KEY, true), 1 := Outside], map[], [], map[], map[], map[], [], {}, 1, 0, 0)
    else if k == 3 then
      State(map[0 := Armed(0, KEY, true, Some(0)), 1 := Outside], map[], [], map[0 := Timer(0, 0, KEY, InSet)],
            map[], map[], [], {}, 1, 1, 0)
    else if k == 4 then
      State(map[0 := Waiting(0, KEY, true, Some(0), 0, false), 1 := Outside], map[KEY := Registration(0, 0)], [],
            map[0 := Timer(0, 0, KEY, InSet)], map[], map[], [], {}, 1, 1, 1)
    else if k == 5 then
      State(map[0 := Waiting(0, KEY, true, Some(0), 0, true), 1 := Outside], map[KEY := Registration(0, 0)], [],
            map[0 := Timer(0, 0, KEY, InSet)], map[], map[], [], {}, 1, 1, 1)
    else if k == 6 then
      State(map[0 := Waiting(0, KEY, true, Some(0), 0, true), 1 := Outside], map[KEY := Registration(0, 0)], [],
            map[0 := Timer(0, 0, KEY, CopiedOut)], map[], map[], [], {}, 1, 1, 1)
    else if k == 7 then
      State(map[0 := Waiting(0, KEY, true, Some(0), 0, true), 1 := Outside], map[KEY := Registration(0, 0)], [],
            map[0 := Timer(0, 0, KEY, Cancelling)], map[0 := 0], map[], [], {}, 1, 1, 1)
    else if k == 8 then
      State(map[0 := Waiting(0, KEY, true, Some(0), 0, true), 1 := Outside], map[], [Registration(0, 0)],
            map[0 := Timer(0, 0, KEY, Cancelling)], map[0 := 0], map[], [Registration(0, 0)], {}, 1, 1, 1)
    else if k == 9 then
      State(map[0 := Woken(0, KEY, true, Some(0)), 1 := Outside], map[], [], map[0 := Timer(0, 0, KEY, Cancelling)],
            map[0 := 0], map[], [Registration(0, 0)], {}, 1, 1, 1)
    else if k == 10 then
      State(map[0 := Outside, 1 := Outside], map[], [], map[0 := Timer(0, 0, KEY, Cancelling)], map[0 := 0],
            map[0 := TimedOut], [Registration(0, 0)], {}, 1, 1, 1)
    else if k == 11 then
      State(map[0 := Outside, 1 := Trying(1, KEY, false)], map[], [], map[0 := Timer(0, 0, KEY, Cancelling)],
            map[0 := 0], map[0 := TimedOut], [Registration(0, 0)], {}, 2, 1, 1)
    else if k == 12 then
      State(map[0 := Outside, 1 := Blocked(1, KEY, false)], map[], [], map[0 := Timer(0, 0, KEY, Cancelling)],
            map[0 := 0], map[0 := TimedOut], [Registration(0, 0)], {}, 2, 1, 1)
    else if k == 13 then
      State(map[0 := Outside, 1 := Armed(1, KEY, false, None)], map[], [], map[0 := Timer(0, 0, KEY, Cancelling)],
            map[0 := 0], map[0 := TimedOut], [Registration(0, 0)], {}, 2, 1, 1)
    else if k == 14 then
      State(map[0 := Outside, 1 := Waiting(1, KEY, false, None, 1, false)], map[KEY := Registration(1, 1)], [],
            map[0 := Timer(0, 0, KEY, Cancelling)], map[0 := 0], map[0 := TimedOut], [Registration(0, 0)], {}, 2, 1,
            2)
    else if k == 15 then
      State(map[0 := Outside, 1 := Waiting(1, KEY, false, None, 1, true)], map[KEY := Registration(1, 1)], [],
            map[0 := Timer(0, 0, KEY, Cancelling)], map[0 := 0], map[0 := TimedOut], [Registration(0, 0)], {}, 2, 1,
            2)
    else
      State(map[0 := Outside, 1 := Waiting(1, KEY, false, None, 1, true)], map[], [Registration(1, 1)],
            map[0 := Timer(0, 0, KEY, Over)], map[0 := 0], map[0 := TimedOut],
            [Registration(0, 0), Registration(1, 1)], {}, 2, 1, 2)
  }

  ghost function StrayStep(k: nat): Step
    requires k < 16
  {
    [Enter(0, KEY, true), Syscall(0, true), AddTimer(0), AddEvent(0, true), Park(0), Expire(0), CallbackCheck(0),
     Trigger(KEY), Resume(0), AfterWake(0), Enter(1, KEY, false), Syscall(1, true), AddTimer(1), AddEvent(1, true),
     Park(1), CallbackCancel(0, true)][k]
  }

  lemma StrayMoves(k: nat)
    requires k < 16
    ensures Steps(Stray(k), StrayStep(k), Stray(k + 1))
  {
    hide Steps, Stray;
    if k == 0 {
      StrayEnters();
    } else if k == 1 {
      StrayBlocks();
    } else if k == 2 {
      StrayArms();
    } else if k == 3 {
      StrayRegisters();
    } else if k == 4 {
      StrayParks();
    } else if k == 5 {
      StrayExpires();
    } else if k == 6 {
      StrayMarks();
    } else if k == 7 {
      StrayReady();
    } else if k == 8 {
      StrayResumes();
    } else if k == 9 {
      StrayReturns();
    } else if k == 10 {
      OtherEnters();
    } else if k == 11 {
      OtherBlocks();
    } else if k == 12 {
      OtherArms();
    } else if k == 13 {
      OtherRegisters();
    } else if k == 14 {
      OtherParks();
    } else {
      OtherIsWoken();
    }
  }

  lemma StrayEnters()
    ensures Steps(Stray(0), Enter(0, KEY, true), Stray(1))
  {}

  lemma StrayBlocks()
    ensures Steps(Stray(1), Syscall(0, true), Stray(2))
  {}

  lemma StrayArms()
    ensures Steps(Stray(2), AddTimer(0), Stray(3))
  {}

  lemma StrayRegisters()
    ensures Steps(Stray(3), AddEvent(0, true), Stray(4))
  {}

  lemma StrayParks()
    ensures Steps(Stray(4), Park(0), Stray(5))
  {}

  lemma StrayExpires()
    ensures Steps(Stray(5), Expire(0), Stray(6))
  {}

  lemma StrayMarks()
    ensures Steps(Stray(6), CallbackCheck(0), Stray(7))
  {}

  lemma StrayReady()
    ensures Steps(Stray(7), Trigger(KEY), Stray(8))
  {}

  lemma StrayResumes()
    ensures Steps(Stray(8), Resume(0), Stray(9))
  {}

  lemma StrayReturns()
    ensures Steps(Stray(9), AfterWake(0), Stray(10))
  {}

  lemma OtherEnters()
    ensures Steps(Stray(10), Enter(1, KEY, false), Stray(11))
  {}

  lemma OtherBlocks()
    ensures Steps(Stray(11), Syscall(1, true), Stray(12))
  {}

  lemma OtherArms()
    ensures Steps(Stray(12), AddTimer(1), Stray(13))
  {}

  lemma OtherRegisters()
    ensures Steps(Stray(13), AddEvent(1, true), Stray(14))
  {}

  lemma OtherParks()
    ensures Steps(Stray(14), Park(1), Stray(15))
  {}

  lemma OtherIsWoken()
    ensures Steps(Stray(15), CallbackCancel(0, true), Stray(16))
  {}

  lemma StrayStarts()
    ensures Stray(0) == Init(Stray(0).fibers.Keys)
  {}

  lemma OtherStandsAside()
    ensures StrayStep(15) == CallbackCancel(0, true)
    ensures 0 in Stray(15).timers && Stray(15).timers[0].call == 0 && 0 in Stray(15).ended
    ensures Enabled(Stray(15), CallbackCancel(0, true))
    ensures WakesStranger(Stray(15), CallbackCancel(0, true), 0)
  {
    var s := Stray(15);
    assert Next(s, CallbackCancel(0, true)).queued == s.queued + [Registration(1, 1)] && InCall(s, 1);
  }

  lemma OtherIsQueued()
    ensures IsWaiting(Stray(16), 1) && Queued(Stray(16), 1) && !Stray(16).fibers[1].timed
  {}
}
