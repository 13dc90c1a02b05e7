/** How the event loop sleeps: `IOManager::idle` waits in `epoll_wait` for at most
    the time to the earliest timer, and `addTimer` wakes it when it puts a timer in
    front.  One loop thread; any number of other threads add, cancel, refresh and
    reset timers.  The clock never goes back. */
module Sleeping {

  const NO_TIMER: nat := 0xFFFF_FFFF_FFFF_FFFF
  const MAX_TIMEOUT: nat := 3000

  type TimerId = nat

  datatype Timer = Timer(next: nat, ms: nat)

  // -------------------------------------------------- the argument of epoll_wait

  datatype Timeout = Millis(ms: nat) | Forever

  /** A `static_cast<int>` of a 64-bit value. */
  function ToInt(v: nat): (i: int)
    ensures -0x8000_0000 <= i < 0x8000_0000 && (v - i) % 0x1_0000_0000 == 0
  {
    var low := v % 0x1_0000_0000;
    if low < 0x8000_0000 then low else low - 0x1_0000_0000
  }

  /** What `idle` passes on for the answer of `getNextTimer`; a negative number makes
      `epoll_wait` block without limit. */
  function EpollTimeout(wait: nat): (t: Timeout) {
    if wait == NO_TIMER then Millis(MAX_TIMEOUT)
    else if ToInt(wait) > MAX_TIMEOUT then Millis(MAX_TIMEOUT)
    else if ToInt(wait) < 0 then Forever
    else Millis(ToInt(wait))
  }

  /** The low half of a wait has its top bit set. */
  predicate LooksNegative(wait: nat) {
    wait != NO_TIMER && wait % 0x1_0000_0000 >= 0x8000_0000
  }

  /** The loop waits at most three seconds and never longer than asked for, and exactly so
      long below 2^31 ms; it blocks for ever exactly when the truncated wait is negative. */
  lemma EpollTimeoutIsBounded(wait: nat)
    ensures EpollTimeout(wait).Millis? ==> EpollTimeout(wait).ms <= MAX_TIMEOUT && EpollTimeout(wait).ms <= wait
    ensures wait < 0x8000_0000 ==> EpollTimeout(wait) == Millis(if wait > MAX_TIMEOUT then MAX_TIMEOUT else wait)
    ensures EpollTimeout(wait).Forever? <==> LooksNegative(wait)
    ensures EpollTimeout(wait).Millis? ==>
      var low := wait % 0x1_0000_0000;
      EpollTimeout(wait).ms == if wait == NO_TIMER || low > MAX_TIMEOUT then MAX_TIMEOUT else low
  {}

  // ---------------------------------------------------------------- the protocol

  /** Where the loop thread is.  `asOf` is when the timeout was computed, `since` when
      the current `epoll_wait` was entered. */
  datatype Loop =
    | Busy
    | Entered                                            // idle count raised
    | Chosen(timeout: Timeout, asOf: nat)                // back from getNextTimer
    | Asleep(timeout: Timeout, asOf: nat, since: nat)
    | Awake                                              // back from epoll_wait
    | Collected                                          // back from listExpiredCb

  datatype State = State(
    clock: nat,
    timers: map<TimerId, Timer>,
    tickled: bool,
    notifiers: nat,        // threads that put a timer in front and have not called tickle yet
    pipe: bool,            // a byte waits in the pipe
    loop: Loop)

  /** `hasIdleThreads` */
  predicate Idle(s: State) { !s.loop.Busy? }

  datatype Step =
    | Tick(ms: nat)
    | Add(id: TimerId, ms: nat, started: nat)            // the deadline is computed before the lock
    | Cancel(id: TimerId)
    | Refresh(id: TimerId)
    | Reset(id: TimerId, ms: nat, fromNow: bool)
    | Notify                                             // tickle after an insertion at the front
    | Tickle                                             // tickle for any other reason
    | GoIdle
    | Choose
    | Sleep
    | Interrupt                                          // EINTR: epoll_wait again, same timeout
    | Wake
    | Collect(now: nat, again: set<TimerId>)             // listExpiredCb; `again` are the recurring ones
    | Drain                                              // empty the pipe and leave the idle fiber

  predicate Front(timers: map<TimerId, Timer>, id: TimerId, next: nat) {
    forall x :: x in timers && x != id ==> next < timers[x].next || (next == timers[x].next && id < x)
  }

  /** The locked part of `addTimer`. */
  ghost function Inserted(s: State, id: TimerId, t: Timer): (r: State) {
    var u := s.(timers := s.timers[id := t]);
    if Front(s.timers, id, t.next) && !s.tickled then u.(tickled := true, notifiers := s.notifiers + 1) else u
  }

  /** `id` has the earliest deadline. */
  predicate Earliest(timers: map<TimerId, Timer>, id: TimerId) {
    id in timers && forall x :: x in timers ==> timers[id].next <= timers[x].next
  }

  /** The answer of `getNextTimer`. */
  ghost predicate IsWait(s: State, wait: nat) {
    if s.timers == map[] then wait == NO_TIMER
    else exists id :: Earliest(s.timers, id)
                      && wait == if s.clock >= s.timers[id].next then 0 else s.timers[id].next - s.clock
  }

  ghost predicate Moves(s: State, step: Step, t: State) {
    match step
    case Tick(ms) => t == s.(clock := s.clock + ms)
    case Add(id, ms, started) =>
      && id !in s.timers && started <= s.clock
      && t == Inserted(s, id, Timer(started + ms, ms))
    case Cancel(id) => t == s.(timers := s.timers - {id})
    case Refresh(id) =>
      id in s.timers && t == s.(timers := s.timers[id := Timer(s.clock + s.timers[id].ms, s.timers[id].ms)])
    case Reset(id, ms, fromNow) =>
      && id in s.timers
      && var start := if fromNow then s.clock else s.timers[id].next - s.timers[id].ms;
         start >= 0 && t == Inserted(s, id, Timer(start + ms, ms))
    case Notify => s.notifiers > 0 && t == s.(notifiers := s.notifiers - 1, pipe := s.pipe || Idle(s))
    case Tickle => t == s.(pipe := s.pipe || Idle(s))
    case GoIdle => s.loop.Busy? && t == s.(loop := Entered)
    case Choose =>
      && s.loop.Entered? && t.loop.Chosen? && t == s.(tickled := false, loop := Chosen(t.loop.timeout, s.clock))
      && exists wait: nat :: IsWait(s, wait) && EpollTimeout(wait) == t.loop.timeout
    case Sleep => s.loop.Chosen? && t == s.(loop := Asleep(s.loop.timeout, s.loop.asOf, s.clock))
    case Interrupt => s.loop.Asleep? && t == s.(loop := Asleep(s.loop.timeout, s.loop.asOf, s.clock))
    case Wake => s.loop.Asleep? && t == s.(loop := Awake)
    case Collect(now, again) =>
      && s.loop.Awake? && now <= s.clock
      && t == s.(loop := Collected, timers := map id | id in s.timers && (s.timers[id].next > now || id in again)
                   :: if s.timers[id].next > now then s.timers[id] else Timer(now + s.timers[id].ms, s.timers[id].ms))
    case Drain => s.loop.Collected? && t == s.(loop := Busy, pipe := false)
  }

  predicate Initial(s: State) {
    s.timers == map[] && !s.tickled && s.notifiers == 0 && !s.pipe && s.loop.Busy?
  }

  ghost predicate IsRun(states: seq<State>, steps: seq<Step>) {
    && |states| == |steps| + 1 && Initial(states[0])
    && forall i :: 0 <= i < |steps| ==> Moves(states[i], steps[i], states[i + 1])
  }

  // ------------------------------------------------------------------ invariants

  /** No timer was started in the future, and its deadline follows its start. */
  ghost predicate StartedInPast(s: State) {
    forall id :: id in s.timers ==> s.timers[id].ms <= s.timers[id].next <= s.clock + s.timers[id].ms
  }

  /** No period reaches 2^31 ms. */
  ghost predicate ShortPeriods(s: State) {
    forall id :: id in s.timers ==> s.timers[id].ms < 0x8000_0000
  }

  /** A step that sets no period of 2^31 ms or more. */
  predicate Short(step: Step) {
    step.Add? || step.Reset? ==> step.ms < 0x8000_0000
  }

  /** A wake-up is in the pipe or about to be written to it. */
  predicate WakePending(s: State) { s.pipe || s.notifiers > 0 }

  /** A limited timeout computed at `asOf` does not reach past any deadline. */
  ghost predicate Covers(s: State, timeout: Timeout, asOf: nat) {
    timeout.Forever? || timeout.ms == 0 || forall id :: id in s.timers ==> asOf + timeout.ms <= s.timers[id].next
  }

  ghost predicate Guarded(s: State) {
    s.loop.Chosen? || s.loop.Asleep? ==>
      && (s.tickled ==> WakePending(s))
      && (WakePending(s) || Covers(s, s.loop.timeout, s.loop.asOf))
      && s.loop.asOf <= s.clock && (s.loop.timeout.Millis? ==> s.loop.timeout.ms <= MAX_TIMEOUT)
      && (s.loop.Asleep? ==> s.loop.asOf <= s.loop.since <= s.clock)
  }

  ghost predicate Inv(s: State) { StartedInPast(s) && Guarded(s) }

  lemma ChooseCovers(s: State, t: State)
    requires Moves(s, Choose, t)
    ensures Covers(t, t.loop.timeout, t.loop.asOf) && (t.loop.timeout.Millis? ==> t.loop.timeout.ms <= MAX_TIMEOUT)
  {
    var wait: nat :| IsWait(s, wait) && EpollTimeout(wait) == t.loop.timeout;
    EpollTimeoutIsBounded(wait);
  }

  lemma InsertedGuarded(s: State, id: TimerId, t: Timer)
    requires Guarded(s)
    ensures Guarded(Inserted(s, id, t))
  {
    var u := Inserted(s, id, t);
    if (s.loop.Chosen? || s.loop.Asleep?) && !WakePending(u) && s.loop.timeout.Millis? && s.loop.timeout.ms > 0 {
      assert !s.tickled && !Front(s.timers, id, t.next);
      var x :| x in s.timers && x != id && !(t.next < s.timers[x].next || (t.next == s.timers[x].next && id < x));
      assert s.loop.asOf + s.loop.timeout.ms <= s.timers[x].next <= t.next;
    }
  }

  lemma StartedStep(s: State, step: Step, t: State)
    requires StartedInPast(s) && Moves(s, step, t)
    ensures StartedInPast(t)
  {}

  lemma GuardedStep(s: State, step: Step, t: State)
    requires Inv(s) && Moves(s, step, t)
    ensures Guarded(t)
  {
    match step {
      case Add(id, ms, started) => InsertedGuarded(s, id, Timer(started + ms, ms));
      case Reset(id, ms, fromNow) =>
        var start := if fromNow then s.clock else s.timers[id].next - s.timers[id].ms;
        InsertedGuarded(s, id, Timer(start + ms, ms));
      case Choose => ChooseCovers(s, t);
      case _ =>
    }
  }

  lemma {:induction false} RunInv(states: seq<State>, steps: seq<Step>, k: nat)
    requires IsRun(states, steps) && k < |states|
    ensures Inv(states[k])
  {
    if k == 0 {
    } else {
      RunInv(states, steps, k - 1);
      StartedStep(states[k - 1], steps[k - 1], states[k]);
      GuardedStep(states[k - 1], steps[k - 1], states[k]);
    }
  }

  // ------------------------------------------------- when the current sleep began

  /** Step `c` is the last Choose before state `k`. */
  ghost predicate LastChoose(steps: seq<Step>, c: nat, k: nat) {
    c < k <= |steps| && steps[c].Choose? && forall i :: c < i < k ==> !steps[i].Choose?
  }

  /** Step `e` is the last entry into `epoll_wait` before state `k`. */
  ghost predicate LastEntry(steps: seq<Step>, e: nat, k: nat) {
    && e < k <= |steps| && (steps[e].Sleep? || steps[e].Interrupt?)
    && forall i :: e < i < k ==> !steps[i].Sleep? && !steps[i].Interrupt?
  }

  /** The time that passes in the steps from `c` up to `e`. */
  function Elapsed(steps: seq<Step>, c: nat, e: nat): (ms: nat)
    requires c <= e <= |steps|
    ensures ms == 0 <==> forall i :: c <= i < e ==> !(steps[i].Tick? && steps[i].ms > 0)
  {
    if c == e then 0 else Elapsed(steps, c, e - 1) + (if steps[e - 1].Tick? then steps[e - 1].ms else 0)
  }

  lemma ClockStep(s: State, step: Step, t: State)
    requires Moves(s, step, t)
    ensures t.clock == s.clock + (if step.Tick? then step.ms else 0)
  {}

  /** A loop that goes by a timeout has just chosen it, or went by it before. */
  lemma LoopStep(s: State, step: Step, t: State)
    requires Moves(s, step, t) && (t.loop.Chosen? || t.loop.Asleep?)
    ensures step.Choose? ==> t.loop.Chosen? && t.loop.asOf == s.clock
    ensures step.Choose? ==> exists wait: nat :: IsWait(s, wait) && t.loop.timeout == EpollTimeout(wait)
    ensures !step.Choose? ==> (s.loop.Chosen? || s.loop.Asleep?)
    ensures !step.Choose? ==> t.loop.timeout == s.loop.timeout && t.loop.asOf == s.loop.asOf
    ensures step.Sleep? || step.Interrupt? ==> t.loop.Asleep? && t.loop.since == s.clock
    ensures t.loop.Asleep? && !step.Sleep? && !step.Interrupt? ==> s.loop.Asleep? && t.loop.since == s.loop.since
  {
    hide IsWait, EpollTimeout;
  }

  lemma {:induction false} ClockIs(states: seq<State>, steps: seq<Step>, c: nat, e: nat)
    requires IsRun(states, steps) && c <= e < |states|
    ensures states[e].clock == states[c].clock + Elapsed(steps, c, e)
  {
    hide Moves;
    if c == e {
    } else {
      ClockIs(states, steps, c, e - 1);
      ClockStep(states[e - 1], steps[e - 1], states[e]);
    }
  }

  /** Chosen or asleep, the loop goes by what it computed at the last Choose. */
  lemma {:induction false} ChosenAt(states: seq<State>, steps: seq<Step>, c: nat, k: nat)
    requires IsRun(states, steps) && LastChoose(steps, c, k) && (states[k].loop.Chosen? || states[k].loop.Asleep?)
    ensures states[k].loop.asOf == states[c].clock
    ensures exists wait: nat :: IsWait(states[c], wait) && states[k].loop.timeout == EpollTimeout(wait)
  {
    hide Moves, IsWait, EpollTimeout;
    LoopStep(states[k - 1], steps[k - 1], states[k]);
    if c == k - 1 {
    } else {
      ChosenAt(states, steps, c, k - 1);
    }
  }

  lemma {:induction false} EnteredAt(states: seq<State>, steps: seq<Step>, e: nat, k: nat)
    requires IsRun(states, steps) && LastEntry(steps, e, k) && states[k].loop.Asleep?
    ensures states[k].loop.since == states[e].clock
  {
    hide Moves, IsWait, EpollTimeout;
    LoopStep(states[k - 1], steps[k - 1], states[k]);
    if e == k - 1 {
    } else {
      EnteredAt(states, steps, e, k - 1);
    }
  }

  /** Every sleep has both steps behind it, the choice first. */
  lemma {:induction false} SleepBegan(states: seq<State>, steps: seq<Step>, k: nat) returns (c: nat, e: nat)
    requires IsRun(states, steps) && k < |states| && (states[k].loop.Chosen? || states[k].loop.Asleep?)
    ensures LastChoose(steps, c, k)
    ensures states[k].loop.Asleep? ==> c < e && LastEntry(steps, e, k)
  {
    hide Moves, IsWait, EpollTimeout;
    assert k > 0;
    LoopStep(states[k - 1], steps[k - 1], states[k]);
    if steps[k - 1].Choose? {
      c, e := k - 1, 0;
    } else {
      c, e := SleepBegan(states, steps, k - 1);
      if steps[k - 1].Sleep? || steps[k - 1].Interrupt? {
        e := k - 1;
      }
    }
  }

  // ------------------------------------------------------------- what each step changes

  /** What happens to one timer: adding, cancelling, refreshing and resetting it, and the
      collection.  A timer that is not due survives the collection as it is, a due recurring
      one starts again from its time, and any other due one is gone. */
  lemma TimerMoves(states: seq<State>, steps: seq<Step>, k: nat, id: TimerId)
    requires IsRun(states, steps) && k < |steps|
    ensures var s, t, step := states[k], states[k + 1], steps[k];
      if id !in s.timers then
        && (id in t.timers <==> step.Add? && step.id == id)
        && (id in t.timers ==> t.timers[id] == Timer(step.started + step.ms, step.ms))
      else
        var p := s.timers[id];
        match step
        case Cancel(x) => if x == id then id !in t.timers else id in t.timers && t.timers[id] == p
        case Refresh(x) => id in t.timers && t.timers[id] == if x == id then Timer(s.clock + p.ms, p.ms) else p
        case Reset(x, ms, fromNow) =>
          id in t.timers && t.timers[id] ==
            if x != id then p else if fromNow then Timer(s.clock + ms, ms) else Timer(p.next - p.ms + ms, ms)
        case Collect(now, again) =>
          if p.next > now then id in t.timers && t.timers[id] == p
          else if id in again then id in t.timers && t.timers[id] == Timer(now + p.ms, p.ms)
          else id !in t.timers
        case _ => id in t.timers && t.timers[id] == p
  {
    hide IsWait, EpollTimeout, Front;
    assert Moves(states[k], steps[k], states[k + 1]);
  }

  /** A timer survives until it is due: from one collection to the next, and as long as nobody
      touches it, it stays as it is while no collection's time has reached its deadline. */
  lemma {:induction false} TimerStays(states: seq<State>, steps: seq<Step>, j: nat, k: nat, id: TimerId)
    requires IsRun(states, steps) && j <= k < |states| && id in states[j].timers
    requires forall i :: j <= i < k ==>
      && ((steps[i].Cancel? || steps[i].Refresh? || steps[i].Reset?) ==> steps[i].id != id)
      && (steps[i].Collect? ==> steps[i].now < states[j].timers[id].next)
    ensures id in states[k].timers && states[k].timers[id] == states[j].timers[id]
    decreases k
  {
    hide Moves;
    if j == k {
    } else {
      TimerStays(states, steps, j, k - 1, id);
      TimerMoves(states, steps, k - 1, id);
    }
  }

  /** What happens to the wake-up: a timer put in front asks for one unless one was asked for
      since the last choice; the byte is written while the loop is idle, and is read by the
      loop on its way out. */
  lemma WakeUpMoves(states: seq<State>, steps: seq<Step>, k: nat)
    requires IsRun(states, steps) && k < |steps|
    ensures var s, t, step := states[k], states[k + 1], steps[k];
      && t.pipe == (if step.Notify? || step.Tickle? then s.pipe || s.loop != Busy else s.pipe && !step.Drain?)
      && (step.Add? || step.Reset? ==>
            var asks := !s.tickled && forall x :: x in t.timers && x != step.id ==>
              t.timers[step.id].next < t.timers[x].next
              || (t.timers[step.id].next == t.timers[x].next && step.id < x);
            t.tickled == (s.tickled || asks) && t.notifiers == s.notifiers + if asks then 1 else 0)
      && (!step.Add? && !step.Reset? ==>
            t.tickled == (s.tickled && !step.Choose?) && t.notifiers == s.notifiers - if step.Notify? then 1 else 0)
  {
    hide IsWait, EpollTimeout;
    var s, step := states[k], steps[k];
    assert Moves(s, step, states[k + 1]);
    if step.Add? || step.Reset? {
      assert forall x :: x in s.timers && x != step.id ==> states[k + 1].timers[x] == s.timers[x];
    }
  }

  /** What happens to the loop: it goes round by its own steps. */
  lemma LoopMoves(states: seq<State>, steps: seq<Step>, k: nat)
    requires IsRun(states, steps) && k < |steps|
    ensures var s, l, m := states[k], states[k].loop, states[k + 1].loop;
      match steps[k]
      case GoIdle => l == Busy && m == Entered
      case Choose => l == Entered && m.Chosen? && m.asOf == s.clock
      case Sleep => l.Chosen? && m == Asleep(l.timeout, l.asOf, s.clock)
      case Interrupt => l.Asleep? && m == Asleep(l.timeout, l.asOf, s.clock)
      case Wake => l.Asleep? && m == Awake
      case Collect(_, _) => l == Awake && m == Collected
      case Drain => l == Collected && m == Busy
      case _ => m == l
  {
    hide IsWait, EpollTimeout;
    assert Moves(states[k], steps[k], states[k + 1]);
  }

  /** What the loop chooses: three seconds without timers, and otherwise the time to the
      earliest deadline, none if that has passed, as `epoll_wait` gets it. */
  lemma ChoosesWait(states: seq<State>, steps: seq<Step>, k: nat, id: TimerId)
    requires IsRun(states, steps) && k < |steps| && steps[k].Choose?
    requires var timers := states[k].timers;
      timers != map[] ==> id in timers && forall x :: x in timers ==> timers[id].next <= timers[x].next
    ensures states[k + 1].loop.Chosen?
    ensures var s, timeout := states[k], states[k + 1].loop.timeout;
      if s.timers == map[] then timeout == Millis(3000)
      else if s.timers[id].next <= s.clock then timeout == Millis(0)
      else
        var wait := s.timers[id].next - s.clock;
        wait < 0x8000_0000 ==> timeout == Millis(if wait > 3000 then 3000 else wait)
  {
    hide EpollTimeout;
    var s, t := states[k], states[k + 1];
    assert Moves(s, Choose, t);
    var wait: nat :| IsWait(s, wait) && EpollTimeout(wait) == t.loop.timeout;
    EpollTimeoutIsBounded(wait);
  }

  // ------------------------------------------------------------- over whole runs

  /** In every interleaving: a thread asleep in `epoll_wait` with a limit has a wake-up
      pending or about to be written, or it wakes at once, or it wakes no later than each
      deadline plus the time that passed between computing the timeout and (re)entering
      the wait. */
  lemma WakesInTime(states: seq<State>, steps: seq<Step>, k: nat, id: TimerId)
    requires IsRun(states, steps) && k < |states| && states[k].loop.Asleep? && id in states[k].timers
    ensures var s := states[k];
      || WakePending(s)
      || s.loop.timeout.Forever?
      || s.loop.timeout.ms == 0
      || s.loop.since + s.loop.timeout.ms <= s.timers[id].next + (s.loop.since - s.loop.asOf)
  {
    RunInv(states, steps, k);
  }

  /** Exactly when it wakes by a deadline: the time that passed between the choice of the
      timeout and the last entry into `epoll_wait` is within what the deadline leaves.  For
      the timer that the timeout was computed for that is no time at all: the clock stood
      still from the choice to the entry, as it does only if no signal came later. */
  lemma WakesInTimeIff(states: seq<State>, steps: seq<Step>, k: nat, c: nat, e: nat, id: TimerId)
    requires IsRun(states, steps) && k < |states| && states[k].loop.Asleep? && id in states[k].timers
    requires LastChoose(steps, c, k) && LastEntry(steps, e, k) && states[k].loop.timeout.Millis?
    ensures c < e
    ensures var l := states[k].loop; var next := states[k].timers[id].next;
      && (l.since + l.timeout.ms <= next <==> Elapsed(steps, c, e) <= next - (l.asOf + l.timeout.ms))
      && (next == l.asOf + l.timeout.ms ==>
           (l.since + l.timeout.ms <= next <==> forall i :: c <= i < e ==> !(steps[i].Tick? && steps[i].ms > 0)))
  {
    hide Moves, Elapsed;
    var choice, entry := SleepBegan(states, steps, k);
    assert choice == c && entry == e;
    ChosenAt(states, steps, c, k);
    EnteredAt(states, steps, e, k);
    ClockIs(states, steps, c, e);
  }

  /** It sleeps without limit exactly when the wait computed at the last Choose looks
      negative as a 32-bit number. */
  lemma SleepsForeverIff(states: seq<State>, steps: seq<Step>, k: nat, c: nat, wait: nat)
    requires IsRun(states, steps) && k < |states| && states[k].loop.Asleep?
    requires LastChoose(steps, c, k) && IsWait(states[c], wait)
    ensures states[k].loop.timeout.Forever? <==> LooksNegative(wait)
  {
    hide Moves, EpollTimeout;
    ChosenAt(states, steps, c, k);
    var other: nat :| IsWait(states[c], other) && states[k].loop.timeout == EpollTimeout(other);
    OneWait(states[c], wait, other);
    EpollTimeoutIsBounded(wait);
  }

  /** `getNextTimer` has one answer. */
  lemma OneWait(s: State, a: nat, b: nat)
    requires IsWait(s, a) && IsWait(s, b)
    ensures a == b
  {}

  lemma {:induction false} RunShort(states: seq<State>, steps: seq<Step>, k: nat)
    requires IsRun(states, steps) && k < |states| && forall i :: 0 <= i < k ==> Short(steps[i])
    ensures ShortPeriods(states[k])
  {
    hide IsWait, EpollTimeout;
    if k == 0 {
    } else {
      RunShort(states, steps, k - 1);
      assert Moves(states[k - 1], steps[k - 1], states[k]);
    }
  }

  /** A timer started in the past with a short period is less than 2^31 ms away. */
  lemma ShortWait(s: State, wait: nat)
    requires StartedInPast(s) && ShortPeriods(s) && IsWait(s, wait)
    ensures !LooksNegative(wait)
  {
    if s.timers != map[] {
      var id :| Earliest(s.timers, id)
        && wait == if s.clock >= s.timers[id].next then 0 else s.timers[id].next - s.clock;
      assert s.timers[id].next <= s.clock + s.timers[id].ms;
    }
  }

  /** In every run whose periods are below 2^31 ms, whatever is added, refreshed and reset
      while time passes, the loop never sleeps without limit, and three seconds at most. */
  lemma SleepIsBounded(states: seq<State>, steps: seq<Step>, k: nat)
    requires IsRun(states, steps) && k < |states| && states[k].loop.Asleep?
    requires forall i :: 0 <= i < k ==> Short(steps[i])
    ensures states[k].loop.timeout.Millis? && states[k].loop.timeout.ms <= MAX_TIMEOUT
  {
    hide Moves, IsWait, EpollTimeout;
    RunInv(states, steps, k);
    var c, e := SleepBegan(states, steps, k);
    ChosenAt(states, steps, c, k);
    var wait: nat :| IsWait(states[c], wait) && states[k].loop.timeout == EpollTimeout(wait);
    RunInv(states, steps, c);
    RunShort(states, steps, c);
    ShortWait(states[c], wait);
    EpollTimeoutIsBounded(wait);
  }

  /** The first timer is in front. */
  lemma AddToEmpty(s: State, id: TimerId, ms: nat)
    requires s.timers == map[] && !s.tickled
    ensures Moves(s, Add(id, ms, 0), s.(timers := map[id := Timer(ms, ms)],
      tickled := true, notifiers := s.notifiers + 1))
  {
    assert Front(s.timers, id, ms);
    assert s.timers[id := Timer(ms, ms)] == map[id := Timer(ms, ms)];
  }

  /** The delay in that bound is real: an EINTR restarts the whole timeout, and the loop
      then sleeps past the deadline with no wake-up pending. */
  lemma InterruptOversleeps() returns (states: seq<State>, steps: seq<Step>)
    ensures IsRun(states, steps)
    ensures var s := states[|steps|];
      && s.loop.Asleep? && s.loop.timeout.Millis? && !WakePending(s) && 0 in s.timers
      && s.timers[0].next < s.loop.since + s.loop.timeout.ms
  {
    hide Moves;
    states, steps := Nap(10, Millis(10));
    states := states + [Slept(10, Millis(10), 6), Slept(10, Millis(10), 7)];
    steps := steps + [Tick(9), Interrupt];
    InterruptedAt9(Millis(10));
  }

  /** So is the limit on periods: with one timer of 2^31 ms the loop sleeps for ever. */
  lemma LongTimerBlocks() returns (states: seq<State>, steps: seq<Step>)
    ensures IsRun(states, steps) && states[|steps|].loop.Asleep? && states[|steps|].loop.timeout.Forever?
    ensures !WakePending(states[|steps|])
  {
    hide Moves;
    states, steps := Nap(0x8000_0000, Forever);
  }

  /** The states of both runs: a timer of `ms` is added, the loop goes idle and sleeps, and
      a signal interrupts it at 9. */
  ghost function Slept(ms: nat, timeout: Timeout, k: nat): State {
    var m := map[0 := Timer(ms, ms)];
    if k == 0 then State(0, map[], false, 0, false, Busy)
    else if k == 1 then State(0, m, true, 1, false, Busy)
    else if k == 2 then State(0, m, true, 0, false, Busy)
    else if k == 3 then State(0, m, true, 0, false, Entered)
    else if k == 4 then State(0, m, false, 0, false, Chosen(timeout, 0))
    else if k == 5 then State(0, m, false, 0, false, Asleep(timeout, 0, 0))
    else if k == 6 then State(9, m, false, 0, false, Asleep(timeout, 0, 0))
    else State(9, m, false, 0, false, Asleep(timeout, 0, 9))
  }

  /** The run up to the first entry into `epoll_wait`. */
  lemma Nap(ms: nat, timeout: Timeout) returns (states: seq<State>, steps: seq<Step>)
    requires ms > 0 && timeout == EpollTimeout(ms)
    ensures IsRun(states, steps) && |steps| == 5 && states[5] == Slept(ms, timeout, 5)
  {
    hide Moves, EpollTimeout;
    states := [Slept(ms, timeout, 0), Slept(ms, timeout, 1), Slept(ms, timeout, 2),
               Slept(ms, timeout, 3), Slept(ms, timeout, 4), Slept(ms, timeout, 5)];
    steps := [Add(0, ms, 0), Notify, GoIdle, Choose, Sleep];
    AddToEmpty(Slept(ms, timeout, 0), 0, ms);
    NapWakes(ms, timeout);
    ChooseOnly(Slept(ms, timeout, 3), 0);
  }

  lemma NapWakes(ms: nat, timeout: Timeout)
    ensures Moves(Slept(ms, timeout, 1), Notify, Slept(ms, timeout, 2))
    ensures Moves(Slept(ms, timeout, 2), GoIdle, Slept(ms, timeout, 3))
    ensures Moves(Slept(ms, timeout, 4), Sleep, Slept(ms, timeout, 5))
  {}

  lemma InterruptedAt9(timeout: Timeout)
    ensures Moves(Slept(10, timeout, 5), Tick(9), Slept(10, timeout, 6))
    ensures Moves(Slept(10, timeout, 6), Interrupt, Slept(10, timeout, 7))
  {}

  /** The choice for a single timer that is not due. */
  lemma ChooseOnly(s: State, id: TimerId)
    requires s.loop.Entered? && s.timers.Keys == {id} && s.clock < s.timers[id].next
    ensures Moves(s, Choose, s.(tickled := false, loop := Chosen(EpollTimeout(s.timers[id].next - s.clock), s.clock)))
  {
    hide EpollTimeout;
    var wait := s.timers[id].next - s.clock;
    assert Earliest(s.timers, id) && id in s.timers;
    assert IsWait(s, wait);
  }
}
