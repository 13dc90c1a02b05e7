/** The event table of the I/O manager: per-descriptor contexts, the kernel's interest
    list, the pending counter, and the jobs handed to schedulers. */
module IoManagers {
  import opened EventLedger

  const INITIAL_CONTEXTS := 32

  datatype Option<T> = None | Some(value: T)

  datatype Op = Add | Mod | Del

  /** The bits epoll_wait can report. */
  datatype Report = In | Out | Err | Hup

  datatype Registered = Ok | CtlFailed | Aborted

  /** The events a report stands for, given the ones registered: an error or a hang-up
      stands for every registered event. */
  function Real(reported: set<Report>, events: set<Event>): (r: set<Event>) {
    var broken := Err in reported || Hup in reported;
    (if In in reported || (broken && Read in events) then {Read} else {})
    + (if Out in reported || (broken && Write in events) then {Write} else {})
  }

  lemma RealIs(reported: set<Report>, events: set<Event>)
    ensures Read in Real(reported, events) <==>
      In in reported || (Read in events && (Err in reported || Hup in reported))
    ensures Write in Real(reported, events) <==>
      Out in reported || (Write in events && (Err in reported || Hup in reported))
    ensures events * Real(reported, events) == {} <==>
      forall e: Event :: !(e in events && e in Real(reported, events))
  {}

  /** The kernel watches exactly the registered events. */
  ghost predicate Watches(kernel: map<nat, set<Event>>, l: Ledger) {
    && (forall fd :: fd in kernel ==> kernel[fd] != {})
    && (forall slot: Slot :: slot in l.live <==> slot.fd in kernel && slot.event in kernel[slot.fd])
  }

  ghost function Mask(kernel: map<nat, set<Event>>, fd: nat, events: set<Event>): map<nat, set<Event>> {
    if events == {} then kernel - {fd} else kernel[fd := events]
  }

  /** A change to one descriptor's mask matches a change to that descriptor's slots. */
  lemma MaskWatches(kernel: map<nat, set<Event>>, l: Ledger, fd: nat, events: set<Event>, m: Ledger)
    requires Watches(kernel, l)
    requires forall slot: Slot :: slot.fd != fd ==> (slot in m.live <==> slot in l.live)
    requires forall e: Event :: Slot(fd, e) in m.live <==> e in events
    ensures Watches(Mask(kernel, fd, events), m)
  {
    var after := Mask(kernel, fd, events);
    forall slot: Slot
      ensures slot in m.live <==> slot.fd in after && slot.event in after[slot.fd]
    {
      assert slot == Slot(slot.fd, slot.event);
    }
  }

  /** The kernel knows a descriptor exactly when some event of it is registered. */
  lemma KnownIff(kernel: map<nat, set<Event>>, l: Ledger, fd: nat, events: set<Event>)
    requires Watches(kernel, l)
    requires forall e: Event :: Slot(fd, e) in l.live <==> e in events
    ensures fd in kernel <==> events != {}
    ensures fd in kernel ==> kernel[fd] == events
  {
    if fd in kernel {
      var e :| e in kernel[fd];
      assert Slot(fd, e) in l.live;
      forall e: Event
        ensures e in kernel[fd] <==> e in events
      {
        assert Slot(fd, e) in l.live <==> e in kernel[fd];
      }
    } else {
      forall e: Event
        ensures e !in events
      {
        assert Slot(fd, e) !in l.live;
      }
    }
  }

  /** What a trigger of an event hands to its scheduler. */
  function JobsIf(due: bool, context: Context): (jobs: seq<Job>)
    ensures !due ==> jobs == []
    ensures due && context.Armed? ==> jobs == [context.job]
  {
    if due && context.Armed? then [context.job] else []
  }

  class FdContext {
    const fd: nat
    var events: set<Event>
    var read: Context
    var write: Context

    function ContextOf(event: Event): Context
      reads this
    {
      if event == Read then read else write
    }

    /** The bits and contexts are what the ledger says of this descriptor. */
    ghost predicate Mirrors(l: Ledger)
      requires Numbered(l)
      reads this
    {
      forall e: Event :: ContextOf(e) == JobAt(l, Slot(fd, e)) && (e in events <==> Slot(fd, e) in l.live)
    }

    constructor (fd: nat)
      ensures this.fd == fd && events == {} && read == write == Empty
    {
      this.fd := fd;
      events, read, write := {}, Empty, Empty;
    }

    method SetContext(event: Event, context: Context)
      modifies `read, `write
      ensures ContextOf(event) == context
      ensures forall e :: e != event ==> ContextOf(e) == old(ContextOf(e))
    {
      match event
      case Read => read := context;
      case Write => write := context;
    }

    /** Clears the event and gives back the job to schedule. */
    method TriggerEvent(event: Event) returns (job: Job)
      requires event in events && ContextOf(event).Armed?
      modifies this
      ensures events == old(events) - {event}
      ensures old(ContextOf(event)) == Armed(job) && ContextOf(event) == Empty
      ensures forall e :: e != event ==> ContextOf(e) == old(ContextOf(e))
    {
      job := ContextOf(event).job;
      events := events - {event};
      SetContext(event, Empty);
    }
  }

  class IoManager {
    var fds: seq<FdContext>
    /** The interest list: the events the kernel watches on each descriptor it knows. */
    var kernel: map<nat, set<Event>>
    var pending: int
    var scheduled: seq<Job>
    ghost var ledger: Ledger

    /** The ledger describes the contexts and what was scheduled, and the counter counts its
        live registrations. */
    ghost predicate Matches()
      reads this, fds
    {
      && Balanced(ledger)
      && Numbered(ledger)
      && pending == |ledger.live|
      && HandedOut(ledger, scheduled)
      && (forall slot :: slot in ledger.live ==> slot.fd < |fds|)
      && (forall i :: 0 <= i < |fds| ==> fds[i].fd == i && fds[i].Mirrors(ledger))
    }

    ghost predicate Consistent()
      reads this, fds
    {
      Watches(kernel, ledger) && Matches()
    }

    /** Each event bit, its context, the kernel's mask and the pending counter agree with the
        ledger, and so does what was scheduled. */
    ghost predicate Valid()
      reads this, fds
    {
      Consistent() && |fds| >= INITIAL_CONTEXTS
    }

    /** Every successful addEvent is pending, was handed to its scheduler, or was deleted. */
    lemma Accounted()
      requires Valid()
      ensures |ledger.regs| == pending + |scheduled| + |ledger.dropped|
    {
      Conservation(ledger);
    }

    constructor ()
      ensures Valid() && fresh(fds) && ledger == Ledger([], map[], [], {})
    {
      fds, kernel, pending, scheduled := [], map[], 0, [];
      ledger := Ledger([], map[], [], {});
      new;
      ContextResize(INITIAL_CONTEXTS);
      assert fds == fds[0..];
    }

    lemma NoneRegistered(context: FdContext)
      requires Consistent() && context.fd == |fds|
      requires context.events == {} && context.read == context.write == Empty
      ensures context.Mirrors(ledger)
    {}

    /** Grows the table with unregistered contexts. */
    method ContextResize(size: nat)
      requires Consistent()
      modifies this`fds
      ensures Consistent() && |fds| == if size > |old(fds)| then size else |old(fds)|
      ensures fds[..|old(fds)|] == old(fds) && fresh(fds[|old(fds)|..])
    {
      hide Balanced, Numbered, HandedOut, Watches, JobAt;
      while |fds| < size
        invariant Consistent() && |old(fds)| <= |fds| && (|fds| <= size || |fds| == |old(fds)|)
        invariant fds[..|old(fds)|] == old(fds) && fresh(fds[|old(fds)|..])
      {
        var context := new FdContext(|fds|);
        NoneRegistered(context);
        assert (fds + [context])[|old(fds)|..] == fds[|old(fds)|..] + [context];
        fds := fds + [context];
      }
    }

    /** epoll_ctl: the kernel may refuse, and then changes nothing. The operation always
        suits the interest list: Add for an unknown descriptor, Mod and Del for a known one. */
    method EpollCtl(op: Op, fd: nat, events: set<Event>, accepted: bool)
      requires op == Add <==> fd !in kernel
      requires op == Del <==> events == {}
      modifies this`kernel
      ensures !accepted ==> kernel == old(kernel)
      ensures accepted ==> kernel == Mask(old(kernel), fd, events)
    {
      if accepted {
        kernel := if op == Del then kernel - {fd} else kernel[fd := events];
      }
    }

    /** Makes sure there is a context for `fd`. */
    method FindContext(fd: nat)
      requires Valid()
      modifies this`fds
      ensures Valid() && fd < |fds| == (if fd < |old(fds)| then |old(fds)| else fd * 3 / 2)
      ensures forall context :: context in fds ==> context in old(fds) || fresh(context)
    {
      hide Watches, HandedOut, Balanced, Numbered, JobAt;
      if |fds| <= fd {
        ContextResize(fd * 3 / 2);
        forall context | context in fds
          ensures context in old(fds) || fresh(context)
        {
          assert context in fds[..|old(fds)|] || context in fds[|old(fds)|..];
        }
      }
    }

    method AddEvent(fd: nat, event: Event, scheduler: nat, fiber: nat, callback: Option<nat>, accepted: bool)
      returns (result: Registered)
      requires Valid()
      modifies this, fds
      ensures Valid() && scheduled == old(scheduled)
      ensures forall context :: context in fds ==> context in old(fds) || fresh(context)
      ensures result == Aborted <==> Slot(fd, event) in old(ledger).live
      ensures result == Ok <==> Slot(fd, event) !in old(ledger).live && accepted
      ensures result != Ok ==> ledger == old(ledger)
      ensures result == Ok ==> ledger == Opened(old(ledger), Slot(fd, event),
        Job(scheduler, if callback.Some? then Callback(callback.value) else Fiber(fiber)))
      ensures result == Ok ==>
        && fd < |fds| && event in fds[fd].events
        && fds[fd].ContextOf(event)
           == Armed(Job(scheduler, if callback.Some? then Callback(callback.value) else Fiber(fiber)))
    {
      hide Balanced, Numbered, HandedOut, JobAt, Watches, Mask;
      FindContext(fd);
      var context := fds[fd];
      assert context in fds;
      if event in context.events {
        return Aborted;
      }
      var work := if callback.Some? then Callback(callback.value) else Fiber(fiber);
      KnownIff(kernel, ledger, fd, context.events);
      EpollCtl(if context.events == {} then Add else Mod, fd, context.events + {event}, accepted);
      if !accepted {
        return CtlFailed;
      }
      Arm(fd, event, Job(scheduler, work));
      MaskWatches(old(kernel), old(ledger), fd, context.events, ledger);
      return Ok;
    }

    /** Records a registration the kernel has accepted. */
    method Arm(fd: nat, event: Event, job: Job)
      requires Matches()
      requires fd < |fds| && event !in fds[fd].events
      modifies this`pending, this`ledger, fds[fd]
      ensures Matches()
      ensures fds[fd].events == old(fds[fd].events) + {event} && fds[fd].ContextOf(event) == Armed(job)
      ensures ledger == Opened(old(ledger), Slot(fd, event), job)
    {
      hide Balanced, Numbered, HandedOut, JobAt, Watches, Mask;
      var context := fds[fd];
      ghost var slot := Slot(fd, event);
      OpenedBalanced(ledger, slot, job);
      pending := pending + 1;
      context.events := context.events + {event};
      context.SetContext(event, Armed(job));
      ledger := Opened(ledger, slot, job);
    }

    /** Throws a registration away. */
    method Disarm(fd: nat, event: Event)
      requires Matches()
      requires fd < |fds| && event in fds[fd].events
      modifies this`pending, this`ledger, fds[fd]
      ensures Matches()
      ensures fds[fd].events == old(fds[fd].events) - {event}
      ensures Slot(fd, event) in old(ledger).live && ledger == Dropped(old(ledger), Slot(fd, event))
    {
      hide Balanced, Numbered, HandedOut, JobAt, Watches, Mask;
      var context := fds[fd];
      ghost var slot := Slot(fd, event);
      DroppedBalanced(ledger, slot);
      pending := pending - 1;
      context.events := context.events - {event};
      context.SetContext(event, Empty);
      ledger := Dropped(ledger, slot);
    }

    /** triggerEvent and the count that follows it. */
    method Fire(fd: nat, event: Event)
      requires Matches()
      requires fd < |fds| && event in fds[fd].events
      modifies this`pending, this`scheduled, this`ledger, fds[fd]
      ensures Matches()
      ensures fds[fd].events == old(fds[fd].events) - {event}
      ensures Slot(fd, event) in old(ledger).live && ledger == Queued(old(ledger), Slot(fd, event))
      ensures var context := old(fds[fd].ContextOf(event));
        context.Armed? && scheduled == old(scheduled) + [context.job]
      ensures forall e :: e != event ==> fds[fd].ContextOf(e) == old(fds[fd].ContextOf(e))
    {
      hide Balanced, Numbered, HandedOut, JobAt, Watches, Mask;
      ghost var slot := Slot(fd, event);
      QueuedBalanced(ledger, slot);
      var job := fds[fd].TriggerEvent(event);
      scheduled := scheduled + [job];
      pending := pending - 1;
      ledger := Queued(ledger, slot);
    }

    /** Fires the read event and then the write event of `due`; an event that is not
        registered fails triggerEvent's assertion. */
    method FireAll(fd: nat, due: set<Event>) returns (survived: bool)
      requires Matches() && fd < |fds|
      modifies this`pending, this`scheduled, this`ledger, fds[fd]
      ensures survived <==> due <= old(fds[fd].events)
      ensures survived ==> Matches() && fds[fd].events == old(fds[fd].events) - due
      ensures survived ==> ledger == QueuedAll(old(ledger), fd, due)
      ensures survived ==>
        scheduled == old(scheduled) + JobsIf(Read in due, old(fds[fd].read)) + JobsIf(Write in due, old(fds[fd].write))
    {
      hide Balanced, Numbered, HandedOut, JobAt;
      if Read in due {
        if Read !in fds[fd].events {
          return false;
        }
        Fire(fd, Read);
      }
      if Write in due {
        if Write !in fds[fd].events {
          return false;
        }
        Fire(fd, Write);
      }
      return true;
    }

    method DelEvent(fd: nat, event: Event, accepted: bool) returns (done: bool)
      requires Valid()
      modifies this, fds
      ensures Valid() && fds == old(fds) && scheduled == old(scheduled)
      ensures done <==> Slot(fd, event) in old(ledger).live && accepted
      ensures ledger == if done then Dropped(old(ledger), Slot(fd, event)) else old(ledger)
    {
      hide Balanced, Numbered, HandedOut, JobAt, Watches, Mask;
      if |fds| <= fd || event !in fds[fd].events {
        return false;
      }
      KnownIff(kernel, ledger, fd, fds[fd].events);
      var left := fds[fd].events - {event};
      EpollCtl(if left == {} then Del else Mod, fd, left, accepted);
      if !accepted {
        return false;
      }
      Disarm(fd, event);
      MaskWatches(old(kernel), old(ledger), fd, left, ledger);
      return true;
    }

    method CancelEvent(fd: nat, event: Event, accepted: bool) returns (done: bool)
      requires Valid()
      modifies this, fds
      ensures Valid() && fds == old(fds)
      ensures done <==> Slot(fd, event) in old(ledger).live && accepted
      ensures ledger == if done then Queued(old(ledger), Slot(fd, event)) else old(ledger)
      ensures !done ==> scheduled == old(scheduled)
      ensures done ==>
        && fd < |fds|
        && var context := old(fds[fd].ContextOf(event));
           context.Armed? && scheduled == old(scheduled) + [context.job]
    {
      hide Balanced, Numbered, HandedOut, JobAt, Watches, Mask;
      if |fds| <= fd || event !in fds[fd].events {
        return false;
      }
      KnownIff(kernel, ledger, fd, fds[fd].events);
      var left := fds[fd].events - {event};
      EpollCtl(if left == {} then Del else Mod, fd, left, accepted);
      if !accepted {
        return false;
      }
      Fire(fd, event);
      MaskWatches(old(kernel), old(ledger), fd, left, ledger);
      return true;
    }

    method CancelAll(fd: nat, accepted: bool) returns (done: bool)
      requires Valid()
      modifies this, fds
      ensures Valid() && fds == old(fds)
      ensures done <==> accepted && exists event :: Slot(fd, event) in old(ledger).live
      ensures ledger == if done then QueuedAll(old(ledger), fd, {Read, Write}) else old(ledger)
      ensures done ==> forall event :: Slot(fd, event) !in ledger.live
      ensures !done ==> scheduled == old(scheduled)
      ensures done ==>
        && fd < |fds|
        && scheduled == old(scheduled) + JobsIf(Read in old(fds[fd].events), old(fds[fd].read))
                        + JobsIf(Write in old(fds[fd].events), old(fds[fd].write))
    {
      hide Balanced, Numbered, HandedOut, JobAt, Watches, Mask, QueuedAll;
      QueuedAllLive(ledger, fd, {Read, Write});
      if |fds| <= fd || fds[fd].events == {} {
        return false;
      }
      assert exists event :: event in fds[fd].events && Slot(fd, event) in ledger.live;
      QueuedAllSame(ledger, fd, fds[fd].events, {Read, Write});
      KnownIff(kernel, ledger, fd, fds[fd].events);
      EpollCtl(Del, fd, {}, accepted);
      if !accepted {
        return false;
      }
      var survived := FireAll(fd, fds[fd].events);
      MaskWatches(old(kernel), old(ledger), fd, {}, ledger);
      return true;
    }

    /** Changes the kernel's mask and triggers the events of `due`, if any is registered. */
    method Trigger(fd: nat, due: set<Event>, accepted: bool) returns (survived: bool)
      requires Valid() && fd < |fds|
      modifies this, fds
      ensures fds == old(fds) && (survived ==> Valid())
      ensures !survived <==> accepted && due * old(fds[fd].events) != {} && !(due <= old(fds[fd].events))
      ensures survived && accepted && due * old(fds[fd].events) != {} ==>
        && ledger == QueuedAll(old(ledger), fd, due)
        && scheduled == old(scheduled)
             + JobsIf(Read in due, old(fds[fd].read)) + JobsIf(Write in due, old(fds[fd].write))
      ensures !accepted || due * old(fds[fd].events) == {} ==> ledger == old(ledger) && scheduled == old(scheduled)
    {
      hide Balanced, Numbered, HandedOut, JobAt, Watches, Mask, QueuedAll;
      QueuedAllLive(ledger, fd, due);
      var context := fds[fd];
      if context.events * due == {} {
        return true;
      }
      KnownIff(kernel, ledger, fd, context.events);
      var left := context.events - due;
      EpollCtl(if left == {} then Del else Mod, fd, left, accepted);
      if !accepted {
        return true;
      }
      survived := FireAll(fd, due);
      if survived {
        MaskWatches(old(kernel), old(ledger), fd, left, ledger);
      }
    }

    /** One entry of what epoll_wait returned for `fd`: readable wakes who reads, writable who
        writes, an error or a hang-up both.  A report of one that is not registered, beside one
        that is, fails triggerEvent's assertion. */
    method Deliver(fd: nat, reported: set<Report>, accepted: bool) returns (survived: bool)
      requires Valid() && fd < |fds|
      modifies this, fds
      ensures fds == old(fds) && (survived ==> Valid())
      ensures var live := old(ledger).live;
        var toRead := Slot(fd, Read) in live && (In in reported || Err in reported || Hup in reported);
        var toWrite := Slot(fd, Write) in live && (Out in reported || Err in reported || Hup in reported);
        var stale := (In in reported && Slot(fd, Read) !in live) || (Out in reported && Slot(fd, Write) !in live);
        && (!survived <==> accepted && (toRead || toWrite) && stale)
        && (survived && accepted ==>
              && (forall slot: Slot :: slot in ledger.live <==>
                    slot in live && !(slot == Slot(fd, Read) && toRead) && !(slot == Slot(fd, Write) && toWrite))
              && scheduled == old(scheduled) + JobsIf(toRead, old(fds[fd].read)) + JobsIf(toWrite, old(fds[fd].write)))
        && (survived && !accepted ==> ledger == old(ledger) && scheduled == old(scheduled))
    {
      hide Balanced, Numbered, HandedOut, JobAt, Watches, Mask, QueuedAll, Real;
      ghost var was, live := fds[fd].events, ledger.live;
      assert forall e: Event :: e in was <==> Slot(fd, e) in live;
      var due := Real(reported, fds[fd].events);
      QueuedAllLive(ledger, fd, due);
      RealIs(reported, was);
      survived := Trigger(fd, due, accepted);
      DueSlots(reported, was, fd, live);
    }
  }

  /** The slots that a report empties if it survives. */
  lemma DueSlots(reported: set<Report>, events: set<Event>, fd: nat, live: map<Slot, nat>)
    requires forall e: Event :: e in events <==> Slot(fd, e) in live
    ensures var due := Real(reported, events);
      var toRead := Slot(fd, Read) in live && (In in reported || Err in reported || Hup in reported);
      var toWrite := Slot(fd, Write) in live && (Out in reported || Err in reported || Hup in reported);
      && (due * events == {} <==> !toRead && !toWrite)
      && (due <= events <==> (Read in due <==> toRead) && (Write in due <==> toWrite))
      && (forall slot: Slot :: slot in live && slot.fd == fd && slot.event in due <==>
            (slot == Slot(fd, Read) && toRead) || (slot == Slot(fd, Write) && toWrite))
  {
    RealIs(reported, events);
    var toRead := Slot(fd, Read) in live && (In in reported || Err in reported || Hup in reported);
    var toWrite := Slot(fd, Write) in live && (Out in reported || Err in reported || Hup in reported);
    forall slot: Slot
      ensures slot in live && slot.fd == fd && slot.event in Real(reported, events) <==>
        (slot == Slot(fd, Read) && toRead) || (slot == Slot(fd, Write) && toWrite)
    {
      assert slot == Slot(slot.fd, slot.event) && (slot.event == Read || slot.event == Write);
    }
  }

  /** Whenever both events of a descriptor are registered, a report that both are ready,
      delivered after the read one was deleted, fails triggerEvent's assertion. */
  method StaleReportAborts(manager: IoManager, fd: nat) returns (survived: bool)
    requires manager.Valid()
    requires Slot(fd, Read) in manager.ledger.live && Slot(fd, Write) in manager.ledger.live
    modifies manager, manager.fds
    ensures !survived
  {
    hide Balanced, Numbered, HandedOut, JobAt, Watches, Mask;
    var deleted := manager.DelEvent(fd, Read, true);
    assert Slot(fd, Write) in manager.ledger.live && Slot(fd, Read) !in manager.ledger.live;
    survived := manager.Deliver(fd, {In, Out}, true);
  }
}
