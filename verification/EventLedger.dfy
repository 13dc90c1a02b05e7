/** The life of every event registration, from the addEvent that makes it to the one
    operation that ends it. */
module EventLedger {
  datatype Event = Read | Write

  /** What a registration will wake: a callback, or the fiber that registered. */
  datatype Work = Callback(id: nat) | Fiber(id: nat)

  datatype Job = Job(scheduler: nat, work: Work)

  /** One event's part of a descriptor's context. */
  datatype Context = Empty | Armed(job: Job)

  datatype Slot = Slot(fd: nat, event: Event)

  datatype Registration = Registration(slot: Slot, job: Job)

  /** Registrations are numbered in the order they were made. `live` names the one in each
      occupied slot, `order` the ones handed to a scheduler (in that order), and `dropped` the
      ones that delEvent threw away. */
  datatype Ledger = Ledger(regs: seq<Registration>, live: map<Slot, nat>, order: seq<nat>, dropped: set<nat>)

  ghost predicate IsLive(l: Ledger, id: nat) {
    id < |l.regs| && l.regs[id].slot in l.live && l.live[l.regs[id].slot] == id
  }

  ghost predicate Numbered(l: Ledger) {
    && (forall slot :: slot in l.live ==> l.live[slot] < |l.regs| && l.regs[l.live[slot]].slot == slot)
    && (forall k :: 0 <= k < |l.order| ==> l.order[k] < |l.regs|)
    && (forall id :: id in l.dropped ==> id < |l.regs|)
  }

  ghost predicate Distinct(ids: seq<nat>) {
    forall j, k :: 0 <= j < k < |ids| ==> ids[j] != ids[k]
  }

  /** Every registration is live, was scheduled once, or was dropped: one of the three. */
  ghost predicate Balanced(l: Ledger) {
    && Numbered(l)
    && Distinct(l.order)
    && (forall id: nat :: id < |l.regs| ==> (IsLive(l, id) || id in l.order || id in l.dropped))
    && (forall id: nat :: IsLive(l, id) ==> id !in l.order && id !in l.dropped)
    && (forall id: nat :: id in l.dropped ==> id !in l.order)
  }

  /** The context that `slot` should hold. */
  ghost function JobAt(l: Ledger, slot: Slot): (context: Context)
    requires Numbered(l)
    ensures context.Armed? <==> slot in l.live
  {
    if slot in l.live then Armed(l.regs[l.live[slot]].job) else Empty
  }

  /** The jobs handed out so far. */
  ghost predicate HandedOut(l: Ledger, jobs: seq<Job>)
    requires Numbered(l)
  {
    |jobs| == |l.order| && forall k :: 0 <= k < |jobs| ==> jobs[k] == l.regs[l.order[k]].job
  }

  ghost function Opened(l: Ledger, slot: Slot, job: Job): Ledger {
    l.(regs := l.regs + [Registration(slot, job)], live := l.live[slot := |l.regs|])
  }

  ghost function Queued(l: Ledger, slot: Slot): Ledger
    requires slot in l.live
  {
    l.(live := l.live - {slot}, order := l.order + [l.live[slot]])
  }

  ghost function Dropped(l: Ledger, slot: Slot): Ledger
    requires slot in l.live
  {
    l.(live := l.live - {slot}, dropped := l.dropped + {l.live[slot]})
  }

  /** Queues the slots of `fd` named by `events` that are live, the read one first. */
  ghost function QueuedAll(l: Ledger, fd: nat, events: set<Event>): Ledger {
    var first := if Read in events && Slot(fd, Read) in l.live then Queued(l, Slot(fd, Read)) else l;
    if Write in events && Slot(fd, Write) in first.live then Queued(first, Slot(fd, Write)) else first
  }

  lemma QueuedAllLive(l: Ledger, fd: nat, events: set<Event>)
    ensures forall slot: Slot :: slot in QueuedAll(l, fd, events).live <==>
      slot in l.live && !(slot.fd == fd && slot.event in events)
    ensures (forall event :: event in events ==> Slot(fd, event) !in l.live) ==> QueuedAll(l, fd, events) == l
  {
    var r := QueuedAll(l, fd, events);
    forall slot: Slot
      ensures slot in r.live <==> slot in l.live && !(slot.fd == fd && slot.event in events)
    {
      assert slot == Slot(slot.fd, slot.event) && (slot.event == Read || slot.event == Write);
    }
  }

  /** Events that are not registered make no difference. */
  lemma QueuedAllSame(l: Ledger, fd: nat, a: set<Event>, b: set<Event>)
    requires forall event :: Slot(fd, event) in l.live ==> (event in a <==> event in b)
    ensures QueuedAll(l, fd, a) == QueuedAll(l, fd, b)
  {}

  lemma OpenedBalanced(l: Ledger, slot: Slot, job: Job)
    requires Balanced(l) && slot !in l.live
    ensures Balanced(Opened(l, slot, job)) && Numbered(Opened(l, slot, job))
    ensures |Opened(l, slot, job).live| == |l.live| + 1
    ensures forall s :: JobAt(Opened(l, slot, job), s) == if s == slot then Armed(job) else JobAt(l, s)
    ensures forall jobs :: HandedOut(l, jobs) ==> HandedOut(Opened(l, slot, job), jobs)
  {
    hide Balanced, Numbered, Opened, JobAt, HandedOut;
    OpenedKeeps(l, slot, job);
    OpenedView(l, slot, job);
  }

  lemma OpenedKeeps(l: Ledger, slot: Slot, job: Job)
    requires Balanced(l) && slot !in l.live
    ensures Balanced(Opened(l, slot, job)) && Numbered(l) && Numbered(Opened(l, slot, job))
  {
    var m := Opened(l, slot, job);
    forall id: nat | id < |m.regs|
      ensures IsLive(m, id) <==> (id == |l.regs| || IsLive(l, id))
    {
    }
  }

  lemma OpenedView(l: Ledger, slot: Slot, job: Job)
    requires slot !in l.live && Numbered(l) && Numbered(Opened(l, slot, job))
    ensures |Opened(l, slot, job).live| == |l.live| + 1
    ensures forall s :: JobAt(Opened(l, slot, job), s) == if s == slot then Armed(job) else JobAt(l, s)
    ensures forall jobs :: HandedOut(l, jobs) ==> HandedOut(Opened(l, slot, job), jobs)
  {
    assert Opened(l, slot, job).live.Keys == l.live.Keys + {slot};
  }

  lemma QueuedBalanced(l: Ledger, slot: Slot)
    requires Balanced(l) && slot in l.live
    ensures Balanced(Queued(l, slot)) && Numbered(Queued(l, slot)) && |Queued(l, slot).live| == |l.live| - 1
    ensures forall s :: JobAt(Queued(l, slot), s) == if s == slot then Empty else JobAt(l, s)
    ensures forall jobs :: HandedOut(l, jobs) ==> HandedOut(Queued(l, slot), jobs + [JobAt(l, slot).job])
  {
    hide Balanced, Numbered, Queued, JobAt, HandedOut;
    QueuedKeeps(l, slot);
    QueuedView(l, slot);
  }

  lemma QueuedKeeps(l: Ledger, slot: Slot)
    requires Balanced(l) && slot in l.live
    ensures Balanced(Queued(l, slot)) && Numbered(l) && Numbered(Queued(l, slot))
  {
    var m := Queued(l, slot);
    assert IsLive(l, l.live[slot]);
    forall id: nat | id < |m.regs|
      ensures IsLive(m, id) <==> (id != l.live[slot] && IsLive(l, id))
      ensures id in m.order <==> (id == l.live[slot] || id in l.order)
    {
    }
  }

  lemma QueuedView(l: Ledger, slot: Slot)
    requires slot in l.live && Numbered(l) && Numbered(Queued(l, slot))
    ensures |Queued(l, slot).live| == |l.live| - 1
    ensures forall s :: JobAt(Queued(l, slot), s) == if s == slot then Empty else JobAt(l, s)
    ensures forall jobs :: HandedOut(l, jobs) ==> HandedOut(Queued(l, slot), jobs + [JobAt(l, slot).job])
  {
    assert Queued(l, slot).live.Keys + {slot} == l.live.Keys;
  }

  lemma DroppedBalanced(l: Ledger, slot: Slot)
    requires Balanced(l) && slot in l.live
    ensures Balanced(Dropped(l, slot)) && Numbered(Dropped(l, slot)) && |Dropped(l, slot).live| == |l.live| - 1
    ensures forall s :: JobAt(Dropped(l, slot), s) == if s == slot then Empty else JobAt(l, s)
    ensures forall jobs :: HandedOut(l, jobs) ==> HandedOut(Dropped(l, slot), jobs)
  {
    hide Balanced, Numbered, Dropped, JobAt, HandedOut;
    DroppedKeeps(l, slot);
    DroppedView(l, slot);
  }

  lemma DroppedKeeps(l: Ledger, slot: Slot)
    requires Balanced(l) && slot in l.live
    ensures Balanced(Dropped(l, slot)) && Numbered(l) && Numbered(Dropped(l, slot))
  {
    var m := Dropped(l, slot);
    assert IsLive(l, l.live[slot]);
    forall id: nat | id < |m.regs|
      ensures IsLive(m, id) <==> (id != l.live[slot] && IsLive(l, id))
    {
    }
  }

  lemma DroppedView(l: Ledger, slot: Slot)
    requires slot in l.live && Numbered(l) && Numbered(Dropped(l, slot))
    ensures |Dropped(l, slot).live| == |l.live| - 1
    ensures forall s :: JobAt(Dropped(l, slot), s) == if s == slot then Empty else JobAt(l, s)
    ensures forall jobs :: HandedOut(l, jobs) ==> HandedOut(Dropped(l, slot), jobs)
  {
    assert Dropped(l, slot).live.Keys + {slot} == l.live.Keys;
  }

  ghost function Range(n: nat): (s: set<nat>)
    ensures |s| == n && forall i: nat :: i in s <==> i < n
  {
    if n == 0 then {} else Range(n - 1) + {n - 1}
  }

  ghost function ToSet(ids: seq<nat>): (s: set<nat>)
    ensures forall id :: id in s <==> id in ids
  {
    set id | id in ids
  }

  lemma {:induction false} DistinctCount(ids: seq<nat>)
    requires Distinct(ids)
    ensures |ToSet(ids)| == |ids|
  {
    if ids == [] {
    } else {
      var rest := ids[..|ids| - 1];
      var last := ids[|ids| - 1];
      DistinctCount(rest);
      assert ids == rest + [last];
      assert ToSet(ids) == ToSet(rest) + {last};
    }
  }

  ghost function LiveIds(l: Ledger): (s: set<nat>)
    ensures forall id: nat :: id in s <==> IsLive(l, id)
  {
    set id: nat | id < |l.regs| && IsLive(l, id)
  }

  lemma LiveWithout(l: Ledger, slot: Slot)
    requires Numbered(l) && slot in l.live
    ensures LiveIds(l) == LiveIds(l.(live := l.live - {slot})) + {l.live[slot]}
    ensures l.live[slot] !in LiveIds(l.(live := l.live - {slot}))
  {
    var m := l.(live := l.live - {slot});
    assert IsLive(l, l.live[slot]) && !IsLive(m, l.live[slot]);
    forall id: nat
      ensures IsLive(l, id) <==> (IsLive(m, id) || id == l.live[slot])
    {
      if id < |l.regs| && l.regs[id].slot != slot && l.regs[id].slot in l.live {
        assert l.regs[id].slot in m.live;
      }
    }
  }

  lemma {:induction false} LiveCount(l: Ledger)
    requires Numbered(l)
    ensures |LiveIds(l)| == |l.live|
    decreases |l.live|
  {
    if exists slot :: slot in l.live {
      var slot :| slot in l.live;
      var m := l.(live := l.live - {slot});
      assert l.live.Keys == m.live.Keys + {slot};
      LiveCount(m);
      LiveWithout(l, slot);
    } else {
      assert l.live.Keys == {};
      assert LiveIds(l) == {};
    }
  }

  /** Conservation: every successful addEvent is still pending, has been scheduled, or was
      deleted, and is counted in exactly one of the three. */
  lemma Conservation(l: Ledger)
    requires Balanced(l)
    ensures |l.regs| == |l.live| + |l.order| + |l.dropped|
  {
    hide Numbered, Range, LiveIds, ToSet;
    LiveCount(l);
    DistinctCount(l.order);
    Partition(l);
  }

  lemma Partition(l: Ledger)
    requires Balanced(l)
    ensures Range(|l.regs|) == LiveIds(l) + ToSet(l.order) + l.dropped
    ensures LiveIds(l) !! ToSet(l.order) && (LiveIds(l) + ToSet(l.order)) !! l.dropped
  {
    hide Range, LiveIds, ToSet;
  }
}
