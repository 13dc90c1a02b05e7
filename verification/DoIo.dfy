/** The hooked blocking call `doIo` as a protocol: registering for readiness,
    the timeout timer, cancellation by that timer, by `cancelEvent` and by
    `close`, and the retry.

    Every block under one mutex is one step, and any number of fibers, file
    descriptors and timers interleave.  A fiber that waits is queued only by
    the registration it made; readiness, cancellation and close may come at any
    time and in any order. */
module DoIo {

  datatype Option<T> = None | Some(value: T)

  datatype Event = Read | Write

  /** A registration slot: one per file descriptor and event. */
  datatype Key = Key(fd: nat, event: Event)

  type Fiber = nat
  type Call = nat
  type TimerId = nat

  /** A successful `addEvent`; `id` numbers them. */
  datatype Registration = Registration(fiber: Fiber, id: nat)

  /** Where a fiber is in `doIo`. */
  datatype Phase =
    | Outside
    | Trying(call: Call, key: Key, timed: bool)
    | Blocked(call: Call, key: Key, timed: bool)                            // EAGAIN
    | Armed(call: Call, key: Key, timed: bool, timer: Option<TimerId>)      // about to call addEvent
    | Waiting(call: Call, key: Key, timed: bool, timer: Option<TimerId>, id: nat, parked: bool)
    | Woken(call: Call, key: Key, timed: bool, timer: Option<TimerId>)      // back from yieldToHold

  /** The life of a timeout timer: in the timer set; its callback copied out by
      `listExpiredCb`; past the check of `cancelled`, about to call
      `cancelEvent`; finished or cancelled. */
  datatype TimerPhase = InSet | CopiedOut | Cancelling | Over

  /** `fiber` is the one that armed it; the callback itself only knows the call. */
  datatype Timer = Timer(fiber: Fiber, call: Call, key: Key, phase: TimerPhase)

  /** What `doIo` returned for a finished call. */
  datatype Ending = Completed | TimedOut | AddFailed

  datatype State = State(
    fibers: map<Fiber, Phase>,
    slots: map<Key, Registration>,
    queue: seq<Registration>,        // wake-ups in the scheduler queue
    timers: map<TimerId, Timer>,
    cancelled: map<Call, TimerId>,   // calls whose TimerInfo holds ETIMEDOUT, and the timer that set it
    ended: map<Call, Ending>,
    queued: seq<Registration>,       // every wake-up ever queued, in order
    deleted: set<nat>,               // registrations removed by delEvent
    nextCall: Call,
    nextTimer: TimerId,
    nextId: nat)

  function Init(fibers: set<Fiber>): (s: State) {
    State(map f | f in fibers :: Outside, map[], [], map[], map[], map[], [], {}, 0, 0, 0)
  }

  /** `TimerInfo` lives until `doIo` returns. */
  predicate Live(s: State, c: Call) { c !in s.ended }

  datatype Step =
    | Enter(f: Fiber, key: Key, timed: bool)
    | Syscall(f: Fiber, again: bool)         // EAGAIN, or any other result; EINTR retries stay inside
    | AddTimer(f: Fiber)
    | AddEvent(f: Fiber, ok: bool)
    | Park(f: Fiber)
    | Trigger(key: Key)                      // readiness, cancelEvent or one half of cancelAll
    | DelEvent(key: Key)
    | Expire(t: TimerId)
    | CallbackCheck(t: TimerId)
    | CallbackCancel(t: TimerId, ok: bool)
    | Resume(i: nat)
    | AfterWake(f: Fiber)

  function SetPhase(s: State, f: Fiber, p: Phase): (r: State) {
    s.(fibers := s.fibers[f := p])
  }

  function SetTimer(s: State, t: TimerId, p: TimerPhase): (r: State)
    requires t in s.timers
  {
    s.(timers := s.timers[t := s.timers[t].(phase := p)])
  }

  /** `Timer::cancel`: only a timer that is still in the set is affected. */
  function CancelTimer(s: State, timer: Option<TimerId>): (r: State) {
    if timer.Some? && timer.value in s.timers && s.timers[timer.value].phase.InSet?
    then SetTimer(s, timer.value, Over) else s
  }

  /** `triggerEvent`: the slot is emptied and its fiber queued. */
  function Fire(s: State, key: Key): (r: State) {
    if key in s.slots then
      s.(slots := s.slots - {key}, queue := s.queue + [s.slots[key]], queued := s.queued + [s.slots[key]])
    else s
  }

  predicate Enabled(s: State, step: Step) {
    match step
    case Enter(f, _, _) => f in s.fibers && s.fibers[f].Outside?
    case Syscall(f, _) => f in s.fibers && s.fibers[f].Trying?
    case AddTimer(f) => f in s.fibers && s.fibers[f].Blocked?
    case AddEvent(f, _) => f in s.fibers && s.fibers[f].Armed? && s.fibers[f].key !in s.slots
    case Park(f) => f in s.fibers && s.fibers[f].Waiting? && !s.fibers[f].parked
    case Trigger(key) => key in s.slots
    case DelEvent(key) => key in s.slots
    case Expire(t) => t in s.timers && s.timers[t].phase.InSet?
    case CallbackCheck(t) => t in s.timers && s.timers[t].phase.CopiedOut?
    case CallbackCancel(t, _) => t in s.timers && s.timers[t].phase.Cancelling?
    case Resume(i) =>
      && i < |s.queue| && s.queue[i].fiber in s.fibers
      && s.fibers[s.queue[i].fiber].Waiting? && s.fibers[s.queue[i].fiber].parked
    case AfterWake(f) => f in s.fibers && s.fibers[f].Woken?
  }

  function DoEnter(s: State, f: Fiber, key: Key, timed: bool): (r: State) {
    SetPhase(s, f, Trying(s.nextCall, key, timed)).(nextCall := s.nextCall + 1)
  }

  /** The system call: EAGAIN blocks, any other result is returned. */
  function DoSyscall(s: State, f: Fiber, again: bool): (r: State)
    requires f in s.fibers && s.fibers[f].Trying?
  {
    var p := s.fibers[f];
    if again then SetPhase(s, f, Blocked(p.call, p.key, p.timed))
    else SetPhase(s, f, Outside).(ended := s.ended[p.call := Completed])
  }

  /** `addConditionTimer`, if the descriptor has a timeout. */
  function DoAddTimer(s: State, f: Fiber): (r: State)
    requires f in s.fibers && s.fibers[f].Blocked?
  {
    var p := s.fibers[f];
    if p.timed then
      SetPhase(s, f, Armed(p.call, p.key, true, Some(s.nextTimer)))
        .(timers := s.timers[s.nextTimer := Timer(f, p.call, p.key, InSet)], nextTimer := s.nextTimer + 1)
    else SetPhase(s, f, Armed(p.call, p.key, false, None))
  }

  /** `addEvent` succeeds. */
  function DoRegister(s: State, f: Fiber): (r: State)
    requires f in s.fibers && s.fibers[f].Armed?
  {
    var p := s.fibers[f];
    SetPhase(s, f, Waiting(p.call, p.key, p.timed, p.timer, s.nextId, false))
      .(slots := s.slots[p.key := Registration(f, s.nextId)], nextId := s.nextId + 1)
  }

  /** `addEvent` fails: the timer is cancelled and -1 returned. */
  function DoAddFails(s: State, f: Fiber): (r: State)
    requires f in s.fibers && s.fibers[f].Armed?
  {
    var p := s.fibers[f];
    CancelTimer(SetPhase(s, f, Outside), p.timer).(ended := s.ended[p.call := AddFailed])
  }

  /** `delEvent`: the slot is emptied and nobody is queued. */
  function DoDelete(s: State, key: Key): (r: State)
    requires key in s.slots
  {
    s.(slots := s.slots - {key}, deleted := s.deleted + {s.slots[key].id})
  }

  /** The timer callback: nothing if the call is over or already marked. */
  function DoCheck(s: State, t: TimerId): (r: State)
    requires t in s.timers
  {
    var c := s.timers[t].call;
    if !Live(s, c) || c in s.cancelled then SetTimer(s, t, Over)
    else SetTimer(s, t, Cancelling).(cancelled := s.cancelled[c := t])
  }

  /** A worker takes a wake-up and switches to its fiber. */
  function DoResume(s: State, i: nat): (r: State)
    requires i < |s.queue| && s.queue[i].fiber in s.fibers && s.fibers[s.queue[i].fiber].Waiting?
  {
    var f := s.queue[i].fiber;
    var p := s.fibers[f];
    SetPhase(s, f, Woken(p.call, p.key, p.timed, p.timer)).(queue := s.queue[..i] + s.queue[i + 1..])
  }

  /** After the wake-up: cancel the timer, then return `ETIMEDOUT` or retry. */
  function DoAfterWake(s: State, f: Fiber): (r: State)
    requires f in s.fibers && s.fibers[f].Woken?
  {
    var p := s.fibers[f];
    var t := CancelTimer(s, p.timer);
    if p.call in s.cancelled
    then SetPhase(t, f, Outside).(ended := s.ended[p.call := TimedOut])
    else SetPhase(t, f, Trying(p.call, p.key, p.timed))
  }

  function Next(s: State, step: Step): (r: State)
    requires Enabled(s, step)
  {
    match step
    case Enter(f, key, timed) => DoEnter(s, f, key, timed)
    case Syscall(f, again) => DoSyscall(s, f, again)
    case AddTimer(f) => DoAddTimer(s, f)
    case AddEvent(f, ok) => if ok then DoRegister(s, f) else DoAddFails(s, f)
    case Park(f) => SetPhase(s, f, s.fibers[f].(parked := true))
    case Trigger(key) => Fire(s, key)
    case DelEvent(key) => DoDelete(s, key)
    case Expire(t) => SetTimer(s, t, CopiedOut)
    case CallbackCheck(t) => DoCheck(s, t)
    case CallbackCancel(t, ok) =>
      if ok then Fire(SetTimer(s, t, Over), s.timers[t].key) else SetTimer(s, t, Over)
    case Resume(i) => DoResume(s, i)
    case AfterWake(f) => DoAfterWake(s, f)
  }

  /** A run: each state but the first comes from the one before it by an enabled step. */
  ghost predicate IsRun(states: seq<State>, steps: seq<Step>) {
    && |states| == |steps| + 1
    && states[0] == Init(states[0].fibers.Keys)
    && forall i :: 0 <= i < |steps| ==> Enabled(states[i], steps[i]) && states[i + 1] == Next(states[i], steps[i])
  }

  // --------------------------------------------------------------- invariants

  predicate IsWaiting(s: State, f: Fiber) { f in s.fibers && s.fibers[f].Waiting? }

  /** The `addEvent` on which a fiber waits. */
  function Wait(s: State, f: Fiber): (r: Registration)
    requires IsWaiting(s, f)
  {
    Registration(f, s.fibers[f].id)
  }

  predicate Registered(s: State, f: Fiber)
    requires IsWaiting(s, f)
  {
    s.fibers[f].key in s.slots && s.slots[s.fibers[f].key] == Wait(s, f)
  }

  predicate Queued(s: State, f: Fiber)
    requires IsWaiting(s, f)
  {
    Wait(s, f) in s.queue
  }

  predicate Deleted(s: State, f: Fiber)
    requires IsWaiting(s, f)
  {
    s.fibers[f].id in s.deleted
  }

  /** A filled slot belongs to a fiber that waits on that slot. */
  ghost predicate SlotsOwned(s: State) {
    forall key :: key in s.slots ==>
      var r := s.slots[key];
      IsWaiting(s, r.fiber) && Wait(s, r.fiber) == r && s.fibers[r.fiber].key == key
  }

  /** A queued wake-up belongs to a waiting fiber, and no two are the same. */
  ghost predicate QueueOwned(s: State) {
    && (forall i :: 0 <= i < |s.queue| ==> IsWaiting(s, s.queue[i].fiber) && Wait(s, s.queue[i].fiber) == s.queue[i])
    && (forall i, j :: 0 <= i < j < |s.queue| ==> s.queue[i] != s.queue[j])
  }

  /** A waiting fiber is registered, queued or deleted: exactly one of the three. */
  ghost predicate OneOfThree(s: State) {
    forall f :: IsWaiting(s, f) ==>
      && (Registered(s, f) || Queued(s, f) || Deleted(s, f))
      && !(Registered(s, f) && Queued(s, f))
      && !(Registered(s, f) && Deleted(s, f))
      && !(Queued(s, f) && Deleted(s, f))
  }

  /** Registration numbers are never reused, and none is queued twice. */
  ghost predicate Numbered(s: State) {
    && (forall f :: IsWaiting(s, f) ==> s.fibers[f].id < s.nextId)
    && (forall f, g :: IsWaiting(s, f) && IsWaiting(s, g) && s.fibers[f].id == s.fibers[g].id ==> f == g)
    && (forall id :: id in s.deleted ==> id < s.nextId)
    && (forall i :: 0 <= i < |s.queued| ==> s.queued[i].id < s.nextId)
    && (forall f, i :: IsWaiting(s, f) && Registered(s, f) && 0 <= i < |s.queued| ==> s.queued[i].id != s.fibers[f].id)
    && (forall i, j :: 0 <= i < j < |s.queued| ==> s.queued[i].id != s.queued[j].id)
  }

  predicate InCall(s: State, f: Fiber) { f in s.fibers && !s.fibers[f].Outside? }

  predicate HasTimer(p: Phase, t: TimerId) {
    (p.Armed? || p.Waiting? || p.Woken?) && p.timer == Some(t)
  }

  /** A fiber in `doIo` has a call of its own that has not ended. */
  ghost predicate CallsOwned(s: State) {
    && (forall f :: InCall(s, f) ==> s.fibers[f].call < s.nextCall && s.fibers[f].call !in s.ended)
    && (forall f, g :: InCall(s, f) && InCall(s, g) && s.fibers[f].call == s.fibers[g].call ==> f == g)
    && (forall c :: c in s.ended ==> c < s.nextCall)
  }

  /** A timer in the timer set belongs to a fiber that will cancel it: none outlives its wait. */
  ghost predicate TimersOwned(s: State) {
    && (forall t :: t in s.timers ==> t < s.nextTimer)
    && (forall t :: t in s.timers && s.timers[t].phase.InSet? ==>
          InCall(s, s.timers[t].fiber) && HasTimer(s.fibers[s.timers[t].fiber], t))
  }

  /** A call is marked as timed out only by the callback of one of its own timers, after
      that timer left the set; and only a marked call returns `ETIMEDOUT`. */
  ghost predicate MarksJustified(s: State) {
    && (forall t :: t in s.timers ==> s.timers[t].call < s.nextCall)
    && (forall c :: c in s.cancelled ==>
          && s.cancelled[c] in s.timers && s.timers[s.cancelled[c]].call == c
          && (s.timers[s.cancelled[c]].phase.Cancelling? || s.timers[s.cancelled[c]].phase.Over?))
    && (forall c :: c in s.ended && s.ended[c].TimedOut? ==> c in s.cancelled)
  }

  ghost predicate WaitInv(s: State) {
    SlotsOwned(s) && QueueOwned(s) && OneOfThree(s) && Numbered(s)
  }

  ghost predicate CallInv(s: State) {
    CallsOwned(s) && TimersOwned(s) && MarksJustified(s)
  }

  ghost predicate Inv(s: State) { WaitInv(s) && CallInv(s) && TimedInv(s) }

  lemma InitInv(fibers: set<Fiber>)
    ensures Inv(Init(fibers))
  {}

  // ------------------------------------------------- waits: the four things that happen to them

  /** The same fibers wait for the same registrations. */
  ghost predicate SameWaits(s: State, t: State) {
    && s.slots == t.slots && s.queue == t.queue && s.queued == t.queued
    && s.deleted == t.deleted && s.nextId == t.nextId
    && (forall f :: IsWaiting(s, f) <==> IsWaiting(t, f))
    && (forall f :: IsWaiting(s, f) ==> s.fibers[f].id == t.fibers[f].id && s.fibers[f].key == t.fibers[f].key)
  }

  lemma QuietKeeps(s: State, t: State)
    requires WaitInv(s) && SameWaits(s, t)
    ensures WaitInv(t)
  {
    assert SlotsOwned(t);
    assert QueueOwned(t);
    assert OneOfThree(t) by {
      forall f | IsWaiting(t, f)
        ensures Registered(t, f) == Registered(s, f) && Queued(t, f) == Queued(s, f) && Deleted(t, f) == Deleted(s, f)
      {}
    }
    assert Numbered(t) by {
      forall f | IsWaiting(t, f) ensures Registered(t, f) == Registered(s, f) {}
    }
  }

  lemma RegisterKeeps(s: State, f: Fiber)
    requires WaitInv(s) && f in s.fibers && s.fibers[f].Armed? && s.fibers[f].key !in s.slots
    ensures WaitInv(DoRegister(s, f))
  {
    var t, key := DoRegister(s, f), s.fibers[f].key;
    assert t.slots == s.slots[key := Registration(f, s.nextId)] && t.fibers == s.fibers[f := t.fibers[f]];
    RegisteredSlots(s, t, f, key);
  }

  /** `t` is `s` after `f` registered on the free slot `key`. */
  ghost predicate Registers(s: State, t: State, f: Fiber, key: Key) {
    && f in s.fibers && s.fibers[f].Armed? && key !in s.slots
    && t.queue == s.queue && t.queued == s.queued && t.deleted == s.deleted && t.nextId == s.nextId + 1
    && t.slots == s.slots[key := Registration(f, s.nextId)]
    && f in t.fibers && t.fibers == s.fibers[f := t.fibers[f]]
    && t.fibers[f].Waiting? && t.fibers[f].key == key && t.fibers[f].id == s.nextId
  }

  lemma RegisteredSlots(s: State, t: State, f: Fiber, key: Key)
    requires WaitInv(s) && Registers(s, t, f, key)
    ensures WaitInv(t)
  {
    hide SlotsOwned, QueueOwned, OneOfThree, Numbered, Registers;
    RegisteredOwned(s, t, f, key);
    RegisteredPlaces(s, t, f, key);
    RegisteredNumbers(s, t, f, key);
  }

  lemma RegisteredOwned(s: State, t: State, f: Fiber, key: Key)
    requires WaitInv(s) && Registers(s, t, f, key)
    ensures SlotsOwned(t) && QueueOwned(t)
  {
    hide OneOfThree, Numbered;
    assert forall g :: g != f ==> (IsWaiting(t, g) <==> IsWaiting(s, g));
  }

  lemma RegisteredPlaces(s: State, t: State, f: Fiber, key: Key)
    requires WaitInv(s) && Registers(s, t, f, key)
    ensures OneOfThree(t)
  {
    forall g | IsWaiting(t, g) && g != f
      ensures Registered(t, g) == Registered(s, g) && Queued(t, g) == Queued(s, g) && Deleted(t, g) == Deleted(s, g)
    {}
    assert Registered(t, f) && !Deleted(t, f) && !Queued(t, f);
  }

  lemma RegisteredNumbers(s: State, t: State, f: Fiber, key: Key)
    requires WaitInv(s) && Registers(s, t, f, key)
    ensures Numbered(t)
  {
    hide QueueOwned, OneOfThree;
    forall g | IsWaiting(t, g) && g != f ensures Registered(t, g) == Registered(s, g) {}
  }

  lemma FireKeeps(s: State, key: Key)
    requires WaitInv(s)
    ensures WaitInv(Fire(s, key))
  {
    if key in s.slots {
      FiredSlots(s, Fire(s, key), key, s.slots[key]);
    }
  }

  /** `t` is `s` after registration `r` on slot `key` fired. */
  ghost predicate Fires(s: State, t: State, key: Key, r: Registration) {
    && key in s.slots && r == s.slots[key]
    && t.fibers == s.fibers && t.deleted == s.deleted && t.nextId == s.nextId
    && t.slots == s.slots - {key} && t.queue == s.queue + [r] && t.queued == s.queued + [r]
  }

  lemma FiredSlots(s: State, t: State, key: Key, r: Registration)
    requires WaitInv(s) && Fires(s, t, key, r)
    ensures WaitInv(t)
  {
    hide SlotsOwned, QueueOwned, OneOfThree, Numbered, Fires;
    FiredOwned(s, t, key, r);
    FiredPlaces(s, t, key, r);
    FiredNumbers(s, t, key, r);
  }

  lemma FiredOwned(s: State, t: State, key: Key, r: Registration)
    requires WaitInv(s) && Fires(s, t, key, r)
    ensures SlotsOwned(t) && QueueOwned(t)
  {
    hide Numbered;
    assert IsWaiting(s, r.fiber) && Registered(s, r.fiber) && !Queued(s, r.fiber);
    assert forall g :: IsWaiting(t, g) <==> IsWaiting(s, g);
    assert forall i :: 0 <= i < |s.queue| ==> t.queue[i] == s.queue[i];
    assert t.queue[|s.queue|] == r;
  }

  /** The firing moves its fiber from the registered to the queued ones. */
  lemma FiredPlaces(s: State, t: State, key: Key, r: Registration)
    requires WaitInv(s) && Fires(s, t, key, r)
    ensures OneOfThree(t)
    ensures forall g :: IsWaiting(t, g) ==> IsWaiting(s, g) && Registered(t, g) == (Registered(s, g) && g != r.fiber)
  {
    hide QueueOwned, Numbered;
    assert IsWaiting(s, r.fiber) && Registered(s, r.fiber) && !Queued(s, r.fiber);
    forall g | IsWaiting(t, g)
      ensures Registered(t, g) == (Registered(s, g) && g != r.fiber)
      ensures Queued(t, g) == (Queued(s, g) || g == r.fiber)
      ensures Deleted(t, g) == Deleted(s, g)
    {}
  }

  lemma FiredNumbers(s: State, t: State, key: Key, r: Registration)
    requires WaitInv(s) && Fires(s, t, key, r)
    ensures Numbered(t)
  {
    hide QueueOwned;
    assert IsWaiting(s, r.fiber) && Registered(s, r.fiber);
    FiredPlaces(s, t, key, r);
  }

  lemma DeleteKeeps(s: State, key: Key)
    requires WaitInv(s) && key in s.slots
    ensures WaitInv(DoDelete(s, key))
  {
    var t, r := DoDelete(s, key), s.slots[key];
    assert IsWaiting(s, r.fiber) && Registered(s, r.fiber) && !Queued(s, r.fiber);
    assert forall g :: IsWaiting(t, g) <==> IsWaiting(s, g);
    assert SlotsOwned(t);
    assert QueueOwned(t);
    assert OneOfThree(t) by {
      forall g | IsWaiting(t, g)
        ensures Registered(t, g) == (Registered(s, g) && g != r.fiber)
        ensures Queued(t, g) == Queued(s, g)
        ensures Deleted(t, g) == (Deleted(s, g) || g == r.fiber)
      {}
    }
    assert Numbered(t) by {
      forall g | IsWaiting(t, g) ensures Registered(t, g) == (Registered(s, g) && g != r.fiber) {}
    }
  }

  lemma ResumeKeeps(s: State, i: nat)
    requires WaitInv(s) && i < |s.queue| && s.queue[i].fiber in s.fibers && s.fibers[s.queue[i].fiber].Waiting?
    ensures WaitInv(DoResume(s, i))
  {
    var t, f := DoResume(s, i), s.queue[i].fiber;
    assert t.fibers == s.fibers[f := t.fibers[f]];
    ResumedQueue(s, t, i, f);
  }

  /** `t` is `s` after the wake-up at `i` of the queue was taken for `f`. */
  ghost predicate Resumes(s: State, t: State, i: nat, f: Fiber) {
    && i < |s.queue| && f == s.queue[i].fiber
    && t.slots == s.slots && t.queued == s.queued && t.deleted == s.deleted && t.nextId == s.nextId
    && t.queue == s.queue[..i] + s.queue[i + 1..]
    && f in t.fibers && t.fibers == s.fibers[f := t.fibers[f]] && !t.fibers[f].Waiting?
  }

  lemma ResumedQueue(s: State, t: State, i: nat, f: Fiber)
    requires WaitInv(s) && Resumes(s, t, i, f)
    ensures WaitInv(t)
  {
    hide SlotsOwned, QueueOwned, OneOfThree, Numbered, Resumes;
    ResumedOwned(s, t, i, f);
    ResumedPlaces(s, t, i, f);
    ResumedNumbers(s, t, i, f);
  }

  lemma ResumedOwned(s: State, t: State, i: nat, f: Fiber)
    requires WaitInv(s) && Resumes(s, t, i, f)
    ensures SlotsOwned(t) && QueueOwned(t)
  {
    hide Numbered;
    assert Queued(s, f) && !Registered(s, f);
    assert forall g :: IsWaiting(t, g) <==> IsWaiting(s, g) && g != f;
    assert forall j :: 0 <= j < |t.queue| ==> t.queue[j] == s.queue[if j < i then j else j + 1];
  }

  lemma ResumedPlaces(s: State, t: State, i: nat, f: Fiber)
    requires WaitInv(s) && Resumes(s, t, i, f)
    ensures OneOfThree(t)
    ensures forall g :: IsWaiting(t, g) ==> IsWaiting(s, g) && g != f && Registered(t, g) == Registered(s, g)
  {
    hide Numbered, SlotsOwned;
    forall g | IsWaiting(t, g)
      ensures IsWaiting(s, g) && g != f
      ensures Registered(t, g) == Registered(s, g) && Queued(t, g) == Queued(s, g) && Deleted(t, g) == Deleted(s, g)
    {
      QueueWithout(s.queue, i, Wait(s, g));
    }
  }

  lemma ResumedNumbers(s: State, t: State, i: nat, f: Fiber)
    requires WaitInv(s) && Resumes(s, t, i, f)
    ensures Numbered(t)
  {
    hide OneOfThree, SlotsOwned, QueueOwned;
    ResumedPlaces(s, t, i, f);
  }

  lemma QueueWithout(q: seq<Registration>, i: nat, r: Registration)
    requires i < |q| && q[i] != r
    ensures r in q[..i] + q[i + 1..] <==> r in q
  {
    if j :| 0 <= j < |q| && q[j] == r {
      assert (q[..i] + q[i + 1..])[if j < i then j else j - 1] == r;
    }
  }

  /** A fiber that does not wait moves to another phase in which it does not. */
  lemma QuietPhase(s: State, f: Fiber, p: Phase)
    requires WaitInv(s) && !IsWaiting(s, f) && !p.Waiting?
    ensures WaitInv(SetPhase(s, f, p))
  {
    hide WaitInv;
    QuietKeeps(s, SetPhase(s, f, p));
  }

  lemma QuietTimer(s: State, timer: Option<TimerId>)
    requires WaitInv(s)
    ensures WaitInv(CancelTimer(s, timer)) && CancelTimer(s, timer).fibers == s.fibers
  {
    hide WaitInv;
    QuietKeeps(s, CancelTimer(s, timer));
  }

  lemma QuietAfterWake(s: State, f: Fiber)
    requires WaitInv(s) && f in s.fibers && s.fibers[f].Woken?
    ensures WaitInv(DoAfterWake(s, f))
  {
    hide WaitInv;
    QuietTimer(s, s.fibers[f].timer);
    QuietKeeps(CancelTimer(s, s.fibers[f].timer), DoAfterWake(s, f));
  }

  lemma QuietAddFails(s: State, f: Fiber)
    requires WaitInv(s) && f in s.fibers && s.fibers[f].Armed?
    ensures WaitInv(DoAddFails(s, f))
  {
    hide WaitInv;
    var out := SetPhase(s, f, Outside);
    QuietPhase(s, f, Outside);
    QuietTimer(out, s.fibers[f].timer);
    QuietKeeps(CancelTimer(out, s.fibers[f].timer), DoAddFails(s, f));
  }

  lemma QuietSyscall(s: State, f: Fiber, again: bool)
    requires WaitInv(s) && f in s.fibers && s.fibers[f].Trying?
    ensures WaitInv(DoSyscall(s, f, again))
  {
    hide WaitInv;
    QuietKeeps(s, DoSyscall(s, f, again));
  }

  lemma QuietAddTimer(s: State, f: Fiber)
    requires WaitInv(s) && f in s.fibers && s.fibers[f].Blocked?
    ensures WaitInv(DoAddTimer(s, f))
  {
    hide WaitInv;
    QuietKeeps(s, DoAddTimer(s, f));
  }

  lemma QuietEnter(s: State, f: Fiber, key: Key, timed: bool)
    requires WaitInv(s) && f in s.fibers && s.fibers[f].Outside?
    ensures WaitInv(DoEnter(s, f, key, timed))
  {
    hide WaitInv;
    QuietKeeps(s, DoEnter(s, f, key, timed));
  }

  lemma QuietCheck(s: State, t: TimerId)
    requires WaitInv(s) && t in s.timers
    ensures WaitInv(DoCheck(s, t))
  {
    hide WaitInv;
    QuietKeeps(s, DoCheck(s, t));
  }

  lemma WaitInvStep(s: State, step: Step)
    requires WaitInv(s) && Enabled(s, step)
    ensures WaitInv(Next(s, step))
  {
    hide WaitInv, DoEnter, DoSyscall, DoAddTimer, DoRegister, DoAddFails, DoDelete;
    hide DoResume, DoAfterWake, Fire, DoCheck;
    match step {
      case Enter(f, key, timed) => QuietEnter(s, f, key, timed);
      case Syscall(f, again) => QuietSyscall(s, f, again);
      case AddTimer(f) => QuietAddTimer(s, f);
      case AddEvent(f, ok) => if ok { RegisterKeeps(s, f); } else { QuietAddFails(s, f); }
      case Park(f) => QuietKeeps(s, SetPhase(s, f, s.fibers[f].(parked := true)));
      case Trigger(key) => FireKeeps(s, key);
      case DelEvent(key) => DeleteKeeps(s, key);
      case Expire(t) => QuietKeeps(s, SetTimer(s, t, CopiedOut));
      case CallbackCheck(t) => QuietCheck(s, t);
      case CallbackCancel(t, ok) =>
        QuietKeeps(s, SetTimer(s, t, Over));
        FireKeeps(SetTimer(s, t, Over), s.timers[t].key);
      case Resume(i) => ResumeKeeps(s, i);
      case AfterWake(f) => QuietAfterWake(s, f);
    }
  }

  // ----------------------------------------------------------------- calls and their timers

  lemma CallEnter(s: State, f: Fiber, key: Key, timed: bool)
    requires CallInv(s) && f in s.fibers && s.fibers[f].Outside?
    ensures CallInv(DoEnter(s, f, key, timed))
  {}

  lemma CallSyscall(s: State, f: Fiber, again: bool)
    requires CallInv(s) && f in s.fibers && s.fibers[f].Trying?
    ensures CallInv(DoSyscall(s, f, again))
  {}

  lemma CallAddTimer(s: State, f: Fiber)
    requires CallInv(s) && f in s.fibers && s.fibers[f].Blocked?
    ensures CallInv(DoAddTimer(s, f))
  {
    hide CallsOwned, TimersOwned, MarksJustified, DoAddTimer;
    AddTimerCalls(s, f);
    AddTimerTimers(s, f);
    AddTimerMarks(s, f);
  }

  lemma AddTimerCalls(s: State, f: Fiber)
    requires CallInv(s) && f in s.fibers && s.fibers[f].Blocked?
    ensures CallsOwned(DoAddTimer(s, f))
  {}

  lemma AddTimerTimers(s: State, f: Fiber)
    requires CallInv(s) && f in s.fibers && s.fibers[f].Blocked?
    ensures TimersOwned(DoAddTimer(s, f))
  {
    var t := DoAddTimer(s, f);
    assert t.fibers == s.fibers[f := t.fibers[f]] && t.fibers[f].call == s.fibers[f].call;
  }

  lemma AddTimerMarks(s: State, f: Fiber)
    requires CallInv(s) && f in s.fibers && s.fibers[f].Blocked?
    ensures MarksJustified(DoAddTimer(s, f))
  {
    var t := DoAddTimer(s, f);
    assert t.fibers == s.fibers[f := t.fibers[f]] && t.fibers[f].call == s.fibers[f].call;
  }

  /** A fiber keeps its call and its timer. */
  lemma CallSamePhase(s: State, f: Fiber, p: Phase)
    requires CallInv(s) && InCall(s, f) && !p.Outside? && p.call == s.fibers[f].call
    requires forall t :: HasTimer(s.fibers[f], t) ==> HasTimer(p, t)
    ensures CallInv(SetPhase(s, f, p))
  {}

  lemma CallRegister(s: State, f: Fiber)
    requires CallInv(s) && f in s.fibers && s.fibers[f].Armed?
    ensures CallInv(DoRegister(s, f))
  {
    hide CallInv;
    var p := DoRegister(s, f).fibers[f];
    CallSamePhase(s, f, p);
    CallIgnoresSlots(SetPhase(s, f, p), DoRegister(s, f));
  }

  /** The calls and timers do not depend on slots and queue. */
  lemma CallIgnoresSlots(s: State, t: State)
    requires CallInv(s) && t.fibers == s.fibers && t.timers == s.timers && t.cancelled == s.cancelled
    requires t.ended == s.ended && t.nextCall == s.nextCall && t.nextTimer == s.nextTimer
    ensures CallInv(t)
  {}

  lemma CallSetTimer(s: State, t: TimerId, p: TimerPhase)
    requires CallInv(s) && t in s.timers && !p.InSet?
    requires s.timers[t].phase.Cancelling? || s.timers[t].phase.Over? ==> p.Cancelling? || p.Over?
    ensures CallInv(SetTimer(s, t, p))
  {}

  lemma CallCheck(s: State, t: TimerId)
    requires CallInv(s) && t in s.timers && s.timers[t].phase.CopiedOut?
    ensures CallInv(DoCheck(s, t))
  {
    hide CallsOwned, TimersOwned, MarksJustified, DoCheck;
    CheckCalls(s, t);
    CheckTimers(s, t);
    CheckMarks(s, t);
  }

  lemma CheckCalls(s: State, t: TimerId)
    requires CallInv(s) && t in s.timers && s.timers[t].phase.CopiedOut?
    ensures CallsOwned(DoCheck(s, t))
  {}

  lemma CheckTimers(s: State, t: TimerId)
    requires CallInv(s) && t in s.timers && s.timers[t].phase.CopiedOut?
    ensures TimersOwned(DoCheck(s, t))
  {}

  lemma CheckMarks(s: State, t: TimerId)
    requires CallInv(s) && t in s.timers && s.timers[t].phase.CopiedOut?
    ensures MarksJustified(DoCheck(s, t))
  {}

  /** A timer that the fiber cancels is no longer in the set. */
  lemma CallCancelTimer(s: State, timer: Option<TimerId>)
    requires CallInv(s)
    ensures CallInv(CancelTimer(s, timer))
    ensures timer.Some? && timer.value in CancelTimer(s, timer).timers ==>
      !CancelTimer(s, timer).timers[timer.value].phase.InSet?
  {
    hide CallInv;
    if timer.Some? && timer.value in s.timers && s.timers[timer.value].phase.InSet? {
      CallSetTimer(s, timer.value, Over);
    }
  }

  /** A fiber whose timer is out of the set may forget it. */
  lemma CallForget(s: State, f: Fiber, p: Phase)
    requires CallInv(s) && InCall(s, f) && !p.Outside? && p.call == s.fibers[f].call
    requires forall t :: HasTimer(s.fibers[f], t) && t in s.timers ==> !s.timers[t].phase.InSet?
    ensures CallInv(SetPhase(s, f, p))
  {
    var t := SetPhase(s, f, p);
    assert CallsOwned(t);
    assert TimersOwned(t);
    assert MarksJustified(t);
  }

  /** ... and may return. */
  lemma CallLeave(s: State, f: Fiber, ending: Ending)
    requires CallInv(s) && InCall(s, f)
    requires forall t :: HasTimer(s.fibers[f], t) && t in s.timers ==> !s.timers[t].phase.InSet?
    requires ending.TimedOut? ==> s.fibers[f].call in s.cancelled
    ensures CallInv(SetPhase(s, f, Outside).(ended := s.ended[s.fibers[f].call := ending]))
  {
    var t := SetPhase(s, f, Outside).(ended := s.ended[s.fibers[f].call := ending]);
    assert CallsOwned(t);
    assert TimersOwned(t);
    assert MarksJustified(t);
  }

  lemma CallAfterWake(s: State, f: Fiber)
    requires CallInv(s) && f in s.fibers && s.fibers[f].Woken?
    ensures CallInv(DoAfterWake(s, f))
  {
    hide CallInv;
    var p := s.fibers[f];
    var t := CancelTimer(s, p.timer);
    CallCancelTimer(s, p.timer);
    if p.call in s.cancelled { CallLeave(t, f, TimedOut); } else { CallForget(t, f, Trying(p.call, p.key, p.timed)); }
  }

  lemma CallAddFails(s: State, f: Fiber)
    requires CallInv(s) && f in s.fibers && s.fibers[f].Armed?
    ensures CallInv(DoAddFails(s, f))
  {
    hide CallInv;
    var p := s.fibers[f];
    var t := CancelTimer(s, p.timer);
    CallCancelTimer(s, p.timer);
    CallLeave(t, f, AddFailed);
    assert DoAddFails(s, f) == SetPhase(t, f, Outside).(ended := t.ended[p.call := AddFailed]);
  }

  lemma CallFire(s: State, key: Key)
    requires CallInv(s)
    ensures CallInv(Fire(s, key))
  {
    hide CallInv;
    CallIgnoresSlots(s, Fire(s, key));
  }

  lemma CallResume(s: State, i: nat)
    requires CallInv(s) && i < |s.queue| && s.queue[i].fiber in s.fibers && s.fibers[s.queue[i].fiber].Waiting?
    ensures CallInv(DoResume(s, i))
  {
    hide CallInv;
    var f := s.queue[i].fiber;
    var p := DoResume(s, i).fibers[f];
    CallSamePhase(s, f, p);
    CallIgnoresSlots(SetPhase(s, f, p), DoResume(s, i));
  }

  lemma CallInvStep(s: State, step: Step)
    requires CallInv(s) && Enabled(s, step)
    ensures CallInv(Next(s, step))
  {
    hide CallInv, DoEnter, DoSyscall, DoAddTimer, DoRegister, DoAddFails, DoResume, DoAfterWake, Fire, DoCheck;
    match step {
      case Enter(f, key, timed) => CallEnter(s, f, key, timed);
      case Syscall(f, again) => CallSyscall(s, f, again);
      case AddTimer(f) => CallAddTimer(s, f);
      case AddEvent(f, ok) => if ok { CallRegister(s, f); } else { CallAddFails(s, f); }
      case Park(f) => CallSamePhase(s, f, s.fibers[f].(parked := true));
      case Trigger(key) => CallFire(s, key);
      case DelEvent(key) => CallIgnoresSlots(s, DoDelete(s, key));
      case Expire(t) => CallSetTimer(s, t, CopiedOut);
      case CallbackCheck(t) => CallCheck(s, t);
      case CallbackCancel(t, ok) => CallSetTimer(s, t, Over); CallFire(SetTimer(s, t, Over), s.timers[t].key);
      case Resume(i) => CallResume(s, i);
      case AfterWake(f) => CallAfterWake(s, f);
    }
  }

  // ------------------------------------------------------------------------- timed waits

  /** A fiber that has passed `addConditionTimer` and not yet cancelled its timer. */
  predicate InWait(s: State, f: Fiber) {
    f in s.fibers && (s.fibers[f].Armed? || s.fibers[f].Waiting? || s.fibers[f].Woken?)
  }

  /** A callback about to call `cancelEvent` has marked its call, and a timed wait has a timer
      of its own that is past its check only if the call is marked. */
  ghost predicate TimedInv(s: State) {
    && (forall t :: t in s.timers && s.timers[t].phase.Cancelling? ==>
          s.timers[t].call in s.cancelled && s.cancelled[s.timers[t].call] == t)
    && (forall f :: InWait(s, f) ==> (s.fibers[f].timed <==> s.fibers[f].timer.Some?))
    && (forall f :: InWait(s, f) && s.fibers[f].timed ==> TimerOf(s, s.fibers[f]))
  }

  /** The timer of a timed wait. */
  ghost predicate TimerOf(s: State, p: Phase)
    requires p.Armed? || p.Waiting? || p.Woken?
  {
    && p.timer.Some? && p.timer.value in s.timers
    && s.timers[p.timer.value].call == p.call && s.timers[p.timer.value].key == p.key
    && (s.timers[p.timer.value].phase.InSet? || s.timers[p.timer.value].phase.CopiedOut? || p.call in s.cancelled)
  }

  lemma TimedAddTimer(s: State, f: Fiber)
    requires CallInv(s) && TimedInv(s) && f in s.fibers && s.fibers[f].Blocked?
    ensures TimedInv(DoAddTimer(s, f))
  {
    hide CallsOwned;
  }

  lemma TimedCheck(s: State, t: TimerId)
    requires CallInv(s) && TimedInv(s) && t in s.timers && s.timers[t].phase.CopiedOut?
    ensures TimedInv(DoCheck(s, t))
  {
    hide CallsOwned, TimersOwned, MarksJustified, TimedInv;
    var c := s.timers[t].call;
    if !Live(s, c) || c in s.cancelled {
      TimedSkipped(s, t);
    } else {
      TimedMarked(s, t);
    }
  }

  /** The callback finds its call over or marked. */
  lemma TimedSkipped(s: State, t: TimerId)
    requires CallsOwned(s) && TimedInv(s) && t in s.timers && s.timers[t].phase.CopiedOut?
    requires !Live(s, s.timers[t].call) || s.timers[t].call in s.cancelled
    ensures TimedInv(SetTimer(s, t, Over))
  {
    forall f | InWait(s, f) && s.fibers[f].timed && s.fibers[f].timer == Some(t)
      ensures s.timers[t].call in s.cancelled
    {
      assert TimerOf(s, s.fibers[f]) && InCall(s, f);
    }
  }

  lemma TimedMarked(s: State, t: TimerId)
    requires TimedInv(s) && t in s.timers && s.timers[t].phase.CopiedOut? && s.timers[t].call !in s.cancelled
    ensures TimedInv(SetTimer(s, t, Cancelling).(cancelled := s.cancelled[s.timers[t].call := t]))
  {}

  /** The fiber leaves its wait and cancels its timer, which nobody else waits with. */
  lemma TimedLeaves(s: State, f: Fiber, t: State)
    requires CallsOwned(s) && TimedInv(s) && InWait(s, f)
    requires t.cancelled == s.cancelled && t.timers == CancelTimer(s, s.fibers[f].timer).timers
    requires f in t.fibers && t.fibers == s.fibers[f := t.fibers[f]] && !InWait(t, f)
    ensures TimedInv(t)
  {
    forall g | InWait(t, g) && t.fibers[g].timed
      ensures TimerOf(t, t.fibers[g])
    {
      assert g != f && InCall(s, g) && InCall(s, f) && TimerOf(s, s.fibers[g]);
      assert s.fibers[f].timed ==> TimerOf(s, s.fibers[f]);
    }
  }

  lemma TimedAfterWake(s: State, f: Fiber)
    requires CallInv(s) && TimedInv(s) && f in s.fibers && s.fibers[f].Woken?
    ensures TimedInv(DoAfterWake(s, f))
  {
    hide CallsOwned, TimersOwned, MarksJustified, TimedInv;
    TimedLeaves(s, f, DoAfterWake(s, f));
  }

  lemma TimedAddFails(s: State, f: Fiber)
    requires CallInv(s) && TimedInv(s) && f in s.fibers && s.fibers[f].Armed?
    ensures TimedInv(DoAddFails(s, f))
  {
    hide CallsOwned, TimersOwned, MarksJustified, TimedInv;
    TimedLeaves(s, f, DoAddFails(s, f));
  }

  predicate SameWait(p: Phase, q: Phase)
    requires (p.Armed? || p.Waiting? || p.Woken?) && (q.Armed? || q.Waiting? || q.Woken?)
  {
    q.timed == p.timed && q.timer == p.timer && q.call == p.call && q.key == p.key
  }

  /** Slots, the queue and finished calls play no part. */
  lemma TimedSame(s: State, t: State)
    requires TimedInv(s) && t.timers == s.timers && t.cancelled == s.cancelled
    requires forall f :: InWait(t, f) ==> InWait(s, f) && SameWait(s.fibers[f], t.fibers[f])
    ensures TimedInv(t)
  {}

  lemma TimedSetTimer(s: State, t: TimerId, p: TimerPhase)
    requires TimedInv(s) && t in s.timers
    requires (s.timers[t].phase.InSet? && p.CopiedOut?) || (s.timers[t].phase.Cancelling? && p.Over?)
    ensures TimedInv(SetTimer(s, t, p))
  {}

  /** A step of one fiber that starts no wait, and keeps the one it was in. */
  lemma TimedPhase(s: State, t: State, f: Fiber)
    requires TimedInv(s) && t.timers == s.timers && t.cancelled == s.cancelled
    requires f in s.fibers && f in t.fibers && t.fibers == s.fibers[f := t.fibers[f]]
    requires InWait(t, f) ==> InWait(s, f) && SameWait(s.fibers[f], t.fibers[f])
    ensures TimedInv(t)
  {
    hide TimedInv;
    TimedSame(s, t);
  }

  lemma TimedRegister(s: State, f: Fiber)
    requires TimedInv(s) && f in s.fibers && s.fibers[f].Armed?
    ensures TimedInv(DoRegister(s, f))
  {
    hide TimedInv;
    TimedSame(s, DoRegister(s, f));
  }

  lemma TimedCancel(s: State, t: TimerId, ok: bool)
    requires TimedInv(s) && t in s.timers && s.timers[t].phase.Cancelling?
    ensures TimedInv(Next(s, CallbackCancel(t, ok)))
  {
    hide TimedInv;
    TimedSetTimer(s, t, Over);
    TimedSame(SetTimer(s, t, Over), Next(s, CallbackCancel(t, ok)));
  }

  lemma TimedStep(s: State, step: Step)
    requires CallInv(s) && TimedInv(s) && Enabled(s, step)
    ensures TimedInv(Next(s, step))
  {
    hide CallInv, TimedInv, DoAddTimer, DoRegister, DoAddFails, DoAfterWake, DoCheck;
    match step {
      case AddTimer(f) => TimedAddTimer(s, f);
      case AddEvent(f, ok) => if ok { TimedRegister(s, f); } else { TimedAddFails(s, f); }
      case Trigger(key) => TimedSame(s, Fire(s, key));
      case DelEvent(key) => TimedSame(s, DoDelete(s, key));
      case Expire(t) => TimedSetTimer(s, t, CopiedOut);
      case CallbackCheck(t) => TimedCheck(s, t);
      case CallbackCancel(t, ok) => TimedCancel(s, t, ok);
      case AfterWake(f) => TimedAfterWake(s, f);
      case Enter(f, key, timed) => TimedPhase(s, DoEnter(s, f, key, timed), f);
      case Syscall(f, again) => TimedPhase(s, DoSyscall(s, f, again), f);
      case Park(f) => TimedPhase(s, Next(s, step), f);
      case Resume(i) => TimedPhase(s, DoResume(s, i), s.queue[i].fiber);
    }
  }

  // ------------------------------------------------------------------------ over whole runs

  lemma {:induction false} RunInv(states: seq<State>, steps: seq<Step>, k: nat)
    requires IsRun(states, steps) && k < |states|
    ensures Inv(states[k])
  {
    hide WaitInv, CallInv, TimedInv, Next;
    if k == 0 {
      InitInv(states[0].fibers.Keys);
    } else {
      RunInv(states, steps, k - 1);
      WaitInvStep(states[k - 1], steps[k - 1]);
      CallInvStep(states[k - 1], steps[k - 1]);
      TimedStep(states[k - 1], steps[k - 1]);
    }
  }
}
