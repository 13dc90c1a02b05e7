/** A counting semaphore that parks fibers instead of threads. */
module Semaphores {
  datatype Waiter = Waiter(scheduler: nat, fiber: nat)

  class FiberSemaphore {
    var concurrency: nat
    var waiters: seq<Waiter>
    /** The waiters handed back to their schedulers, in order. */
    var woken: seq<Waiter>
    /** History: the permits at the start, notify calls, permits taken, and who ever parked. */
    ghost const initial: nat
    ghost var released: nat
    ghost var taken: nat
    ghost var parked: seq<Waiter>

    /** No permit lies idle while someone waits, permits are conserved, and whoever parked was
        woken in that order or still waits in that order. */
    ghost predicate Valid()
      reads this
    {
      && (concurrency == 0 || waiters == [])
      && initial + released == concurrency + taken
      && parked == woken + waiters
    }

    constructor (initial: nat)
      ensures Valid() && this.initial == initial && concurrency == initial && waiters == [] && taken == 0
    {
      this.initial := initial;
      concurrency, waiters, woken := initial, [], [];
      released, taken, parked := 0, 0, [];
    }

    method TryWait() returns (acquired: bool)
      requires Valid()
      modifies this`concurrency, this`taken
      ensures Valid()
      ensures acquired <==> old(concurrency) > 0
      ensures taken == if acquired then old(taken) + 1 else old(taken)
    {
      if concurrency > 0 {
        concurrency := concurrency - 1;
        taken := taken + 1;
        return true;
      }
      return false;
    }

    /** Takes a permit, or parks the caller at the back. */
    method Wait(self: Waiter) returns (parks: bool)
      requires Valid()
      modifies this`concurrency, this`waiters, this`taken, this`parked
      ensures Valid()
      ensures parks <==> old(concurrency) == 0
      ensures parks ==> waiters == old(waiters) + [self] && taken == old(taken)
      ensures !parks ==> waiters == old(waiters) && taken == old(taken) + 1
    {
      if concurrency > 0 {
        concurrency := concurrency - 1;
        taken := taken + 1;
        return false;
      }
      waiters := waiters + [self];
      parked := parked + [self];
      return true;
    }

    /** Gives the permit to the waiter that parked first, or puts it back. */
    method Notify()
      requires Valid()
      modifies this`concurrency, this`waiters, this`woken, this`released, this`taken
      ensures Valid() && released == old(released) + 1
      ensures old(waiters) != [] ==> waiters == old(waiters)[1..] && woken == old(woken) + [old(waiters)[0]]
      ensures old(waiters) != [] ==> concurrency == old(concurrency) && taken == old(taken) + 1
      ensures old(waiters) == [] ==> concurrency == old(concurrency) + 1 && woken == old(woken) && taken == old(taken)
    {
      released := released + 1;
      if waiters != [] {
        woken := woken + [waiters[0]];
        waiters := waiters[1..];
        taken := taken + 1;
      } else {
        concurrency := concurrency + 1;
      }
    }
  }
}
