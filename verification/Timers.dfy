/** `TimerManager` and `Timer`: a set of timers ordered by deadline. */
module Timers {
  import opened Bits

  type TimerId = nat

  const HOUR: nat := 60 * 60 * 1000

  /** A reading of the clock. */
  type Time = t: nat | t < U64

  /** A published timer; it is armed while it has a callback. */
  datatype Timer = Timer(next: nat, ms: nat, recurring: bool, armed: bool)

  type Table = map<TimerId, Timer>

  /** `Timer::Comparator` on two timers; the id stands for the address. */
  predicate Before(m: Table, a: TimerId, b: TimerId)
    requires a in m && b in m
  {
    m[a].next < m[b].next || (m[a].next == m[b].next && a < b)
  }

  /** A pointer to a timer, which may be null. */
  datatype Pointer = Null | To(id: TimerId)

  ghost predicate Points(m: Table, p: Pointer) {
    p.To? ==> p.id in m
  }

  /** `Timer::Comparator` on pointers. */
  predicate Less(m: Table, a: Pointer, b: Pointer)
    requires Points(m, a) && Points(m, b)
  {
    if a.Null? && b.Null? then false
    else if a.Null? then true
    else if b.Null? then false
    else Before(m, a.id, b.id)
  }

  /** The comparator is a strict total order: null first, then by deadline, then by address. */
  lemma LessIsOrder(m: Table, a: Pointer, b: Pointer, c: Pointer)
    requires Points(m, a) && Points(m, b) && Points(m, c)
    ensures !Less(m, a, a)
    ensures Less(m, a, b) && Less(m, b, c) ==> Less(m, a, c)
    ensures a != b ==> Less(m, a, b) != Less(m, b, a)
    ensures a.Null? && b.To? ==> Less(m, a, b)
    ensures a.To? && b.To? && m[a.id].next < m[b.id].next ==> Less(m, a, b)
    ensures a.To? && b.To? && m[a.id].next == m[b.id].next && a.id < b.id ==> Less(m, a, b)
  {}

  /** The contents of the ordered set, in order. */
  predicate Ordered(m: Table, s: seq<TimerId>) {
    && (forall i :: 0 <= i < |s| ==> s[i] in m)
    && (forall i, j :: 0 <= i < j < |s| ==> Before(m, s[i], s[j]))
  }

  /** `std::set::insert`. */
  function Insert(m: Table, s: seq<TimerId>, id: TimerId): (r: seq<TimerId>)
    requires id in m && (forall i :: 0 <= i < |s| ==> s[i] in m)
  {
    if s == [] || Before(m, id, s[0]) then [id] + s
    else [s[0]] + Insert(m, s[1..], id)
  }

  lemma {:induction false} InsertKeeps(m: Table, s: seq<TimerId>, id: TimerId)
    requires Ordered(m, s) && id in m && id !in s
    ensures Ordered(m, Insert(m, s, id))
    ensures forall x :: x in Insert(m, s, id) <==> x in s || x == id
    ensures Insert(m, s, id)[0] == id <==> forall i :: 0 <= i < |s| ==> Before(m, id, s[i])
  {
    if s == [] || Before(m, id, s[0]) {
      var r := [id] + s;
      assert r[1..] == s;
      assert forall i :: 0 < i < |r| ==> r[i] == s[i - 1];
    } else {
      var rest := Insert(m, s[1..], id);
      InsertKeeps(m, s[1..], id);
      var r := [s[0]] + rest;
      forall x ensures x in r <==> x in s || x == id {
        assert x in s <==> x == s[0] || x in s[1..];
      }
      forall i | 0 <= i < |rest| ensures Before(m, s[0], rest[i]) {
        assert rest[i] in rest;
        if rest[i] != id {
          var j :| 0 <= j < |s[1..]| && s[1..][j] == rest[i];
        }
      }
    }
  }

  function Erase(s: seq<TimerId>, k: nat): (r: seq<TimerId>)
    requires k < |s|
  {
    s[..k] + s[k + 1..]
  }

  lemma EraseKeeps(m: Table, s: seq<TimerId>, k: nat)
    requires Ordered(m, s) && k < |s|
    ensures Ordered(m, Erase(s, k))
    ensures forall x :: x in Erase(s, k) <==> x in s && x != s[k]
  {
    var r := Erase(s, k);
    assert forall i :: 0 <= i < |r| ==> r[i] == s[if i < k then i else i + 1];
    forall x ensures x in r <==> x in s && x != s[k] {
      if x in s && x != s[k] {
        var i :| 0 <= i < |s| && s[i] == x;
        assert r[if i < k then i else i - 1] == x;
      }
    }
  }

  /** Changing a timer that is not in the set does not disturb the set. */
  lemma OrderedFrame(m: Table, s: seq<TimerId>, id: TimerId, t: Timer)
    requires Ordered(m, s) && id !in s
    ensures Ordered(m[id := t], s)
  {}

  // ---------------------------------------------------- what a call may do to the timers

  /** One call: timers keep their kind, an unarmed timer stays unarmed, what is handed
      out was armed, is handed out once, and a one-shot timer is then unarmed. */
  ghost predicate Evolves(m: Table, m': Table, handed: seq<TimerId>) {
    && (forall id :: id in m ==> id in m' && m'[id].recurring == m[id].recurring)
    && (forall id :: id in m && m'[id].armed ==> m[id].armed)
    && (forall i :: 0 <= i < |handed| ==> handed[i] in m && m[handed[i]].armed)
    && (forall i, j :: 0 <= i < j < |handed| ==> handed[i] != handed[j])
    && (forall i :: 0 <= i < |handed| && !m[handed[i]].recurring ==> !m'[handed[i]].armed)
  }

  /** A history of calls: `handed[k]` is what the call from `tables[k]` handed out. */
  ghost predicate IsHistory(tables: seq<Table>, handed: seq<seq<TimerId>>) {
    && |tables| == |handed| + 1
    && forall k :: 0 <= k < |handed| ==> Evolves(tables[k], tables[k + 1], handed[k])
  }

  /** A timer that is unarmed (cancelled, or a one-shot that was handed out) is never
      handed out again. */
  lemma {:induction false} UnarmedStaysSilent(tables: seq<Table>, handed: seq<seq<TimerId>>, j: nat, k: nat,
                                              id: TimerId)
    requires IsHistory(tables, handed) && j <= k < |handed|
    requires id in tables[j] && !tables[j][id].armed
    ensures id in tables[k] && !tables[k][id].armed && id !in handed[k]
    decreases k - j
  {
    assert Evolves(tables[j], tables[j + 1], handed[j]);
    if j == k {
    } else {
      UnarmedStaysSilent(tables, handed, j + 1, k, id);
    }
  }

  /** A one-shot timer is handed out at most once in any history. */
  lemma OneShotOnce(tables: seq<Table>, handed: seq<seq<TimerId>>, j: nat, k: nat, id: TimerId)
    requires IsHistory(tables, handed) && j < k < |handed|
    requires id in handed[j] && id in tables[j] && !tables[j][id].recurring
    ensures id !in handed[k]
  {
    assert Evolves(tables[j], tables[j + 1], handed[j]);
    UnarmedStaysSilent(tables, handed, j + 1, k, id);
  }

  // ------------------------------------------------------------------- the manager

  /** What happens to a timer that is handed out. */
  function Fired(t: Timer, now: nat): (r: Timer) {
    if t.recurring then t.(next := (now + t.ms) % U64) else t.(armed := false)
  }

  /** A call that hands out nothing and changes nothing. */
  lemma NothingHanded(m: Table)
    ensures Ordered(m, []) && Evolves(m, m, [])
  {}

  lemma FiredEvolves(m: Table, handed: seq<TimerId>, now: Time, m': Table)
    requires Ordered(m, handed) && forall i :: 0 <= i < |handed| ==> handed[i] in m && m[handed[i]].armed
    requires m' == map id | id in m :: if id in handed then Fired(m[id], now) else m[id]
    ensures Evolves(m, m', handed)
  {
    assert forall i, j :: 0 <= i < j < |handed| ==> Before(m, handed[i], handed[j]);
  }

  class TimerManager {
    var timers: Table
    var ordered: seq<TimerId>
    var tickled: bool
    var previousTime: Time

    /** A published timer is in the ordered set exactly when it has a callback. */
    ghost predicate Valid()
      reads this
    {
      && Ordered(timers, ordered)
      && (forall id :: id in timers ==> (timers[id].armed <==> id in ordered))
    }

    constructor (now: Time)
      ensures Valid() && timers == map[] && ordered == [] && !tickled && previousTime == now
    {
      timers, ordered, tickled, previousTime := map[], [], false, now;
    }

    /** The second `addTimer`: insert, and report an insertion at the front once. */
    method InsertTimer(id: TimerId, t: Timer) returns (atFront: bool)
      requires Ordered(timers, ordered) && id !in ordered && t.armed
      requires forall x :: x in timers && x != id ==> (timers[x].armed <==> x in ordered)
      modifies this
      ensures Valid() && timers == old(timers)[id := t]
      ensures previousTime == old(previousTime)
      ensures atFront <==>
        !old(tickled) && forall x :: x in timers && timers[x].armed && x != id ==> Before(timers, id, x)
      ensures tickled == (old(tickled) || atFront)
    {
      OrderedFrame(timers, ordered, id, t);
      timers := timers[id := t];
      ghost var was := ordered;
      InsertKeeps(timers, ordered, id);
      ordered := Insert(timers, ordered, id);
      atFront := ordered[0] == id && !tickled;
      if atFront {
        tickled := true;
      }
      assert forall x :: x in was <==> x in timers && timers[x].armed && x != id;
      assert (forall i :: 0 <= i < |was| ==> Before(timers, id, was[i]))
        <==> (forall x :: x in was ==> Before(timers, id, x));
    }

    /** `addTimer` of a timer at an unused address; the answer says whether the event loop
        has to be woken. */
    method AddTimer(id: TimerId, ms: nat, recurring: bool, now: Time) returns (notify: bool)
      requires Valid() && id !in timers
      modifies this
      ensures Valid()
      ensures timers == old(timers)[id := Timer((now + ms) % U64, ms, recurring, true)]
      ensures previousTime == old(previousTime)
      ensures notify <==>
        !old(tickled) && forall x :: x in timers && timers[x].armed && x != id ==> Before(timers, id, x)
      ensures tickled == (old(tickled) || notify)
      ensures Evolves(old(timers), timers, [])
    {
      notify := InsertTimer(id, Timer((now + ms) % U64, ms, recurring, true));
    }

    /** Takes a timer out of the ordered set. */
    method Withdraw(id: TimerId)
      requires Valid() && id in timers && timers[id].armed
      modifies this`ordered
      ensures Ordered(timers, ordered)
      ensures forall x :: x in ordered <==> x in old(ordered) && x != id
    {
      var k :| 0 <= k < |ordered| && ordered[k] == id;
      EraseKeeps(timers, ordered, k);
      ordered := Erase(ordered, k);
    }

    /** `Timer::cancel` */
    method Cancel(id: TimerId) returns (was: bool)
      requires Valid() && id in timers
      modifies this
      ensures Valid() && was == old(timers)[id].armed
      ensures timers == old(timers)[id := old(timers)[id].(armed := false)]
      ensures tickled == old(tickled) && previousTime == old(previousTime)
      ensures Evolves(old(timers), timers, [])
    {
      was := timers[id].armed;
      if was {
        Withdraw(id);
        OrderedFrame(timers, ordered, id, timers[id].(armed := false));
        timers := timers[id := timers[id].(armed := false)];
      }
    }

    /** `Timer::refresh`: the set is told nothing about a change of its front. */
    method Refresh(id: TimerId, now: Time) returns (ok: bool)
      requires Valid() && id in timers
      modifies this
      ensures Valid() && ok == old(timers)[id].armed
      ensures timers ==
        if ok then old(timers)[id := old(timers)[id].(next := (now + old(timers)[id].ms) % U64)] else old(timers)
      ensures tickled == old(tickled) && previousTime == old(previousTime)
      ensures Evolves(old(timers), timers, [])
    {
      ok := timers[id].armed;
      if ok {
        Withdraw(id);
        var t := timers[id].(next := (now + timers[id].ms) % U64);
        OrderedFrame(timers, ordered, id, t);
        timers := timers[id := t];
        InsertKeeps(timers, ordered, id);
        ordered := Insert(timers, ordered, id);
      }
    }

    /** `Timer::reset`, with its unlocked shortcut for an unchanged period. */
    method Reset(id: TimerId, ms: nat, fromNow: bool, now: Time) returns (ok: bool, notify: bool)
      requires Valid() && id in timers
      modifies this
      ensures Valid() && previousTime == old(previousTime)
      ensures var t := old(timers)[id]; var same := ms == t.ms && !fromNow;
        && ok == (same || t.armed)
        && timers == (if same || !t.armed then old(timers)
                      else var start := if fromNow then now else (t.next - t.ms) % U64;
                           old(timers)[id := t.(ms := ms, next := (start + ms) % U64)])
        && (same || !t.armed ==> !notify)
        && (!same && t.armed ==> (notify <==>
             !old(tickled) && (forall x :: x in timers && timers[x].armed && x != id ==> Before(timers, id, x))))
      ensures tickled == (old(tickled) || notify)
      ensures Evolves(old(timers), timers, [])
    {
      var t := timers[id];
      if ms == t.ms && !fromNow {
        return true, false;
      }
      if !t.armed {
        return false, false;
      }
      Withdraw(id);
      var start := if fromNow then now else (t.next - t.ms) % U64;
      notify := InsertTimer(id, t.(ms := ms, next := (start + ms) % U64));
      ok := true;
    }

    /** `getNextTimer`: milliseconds to the earliest deadline, 2^64 - 1 if there is none. */
    method GetNextTimer(now: Time) returns (wait: nat)
      requires Valid()
      modifies this`tickled
      ensures !tickled
      ensures (forall id :: id in timers ==> !timers[id].armed) ==> wait == U64 - 1
      ensures forall id :: id in timers && timers[id].armed ==> timers[id].next <= now ==> wait == 0
      ensures forall id :: id in timers && timers[id].armed && wait > 0 ==> now + wait <= timers[id].next
      ensures wait > 0 && ordered != [] ==>
        exists id :: id in timers && timers[id].armed && timers[id].next == now + wait
    {
      tickled := false;
      if ordered == [] {
        return U64 - 1;
      }
      assert forall id :: id in timers && timers[id].armed ==> timers[ordered[0]].next <= timers[id].next by {
        forall id | id in timers && timers[id].armed ensures timers[ordered[0]].next <= timers[id].next {
          var i :| 0 <= i < |ordered| && ordered[i] == id;
        }
      }
      assert ordered[0] in ordered;
      var first := timers[ordered[0]];
      if now >= first.next {
        return 0;
      }
      return first.next - now;
    }

    /** `detectClockRollover`: a step back of more than an hour; below one hour the bound
        wraps around, and any step back counts. */
    method DetectRollover(now: Time) returns (rollover: bool)
      modifies this`previousTime
      ensures old(previousTime) >= HOUR ==> (rollover <==> now + HOUR < old(previousTime))
      ensures old(previousTime) < HOUR ==> (rollover <==> now < old(previousTime))
      ensures previousTime == now
    {
      rollover := now < previousTime && now < (previousTime - HOUR) % U64;
      previousTime := now;
    }

    /** The end of the expired prefix: `lower_bound` of a timer that is due now, then
        past every timer with that same deadline. */
    method ExpiredPrefix(now: Time, nowId: TimerId) returns (cut: nat)
      requires Valid()
      ensures cut <= |ordered|
      ensures forall i :: 0 <= i < |ordered| ==> (i < cut <==> timers[ordered[i]].next <= now)
    {
      cut := 0;
      while cut < |ordered|
            && (timers[ordered[cut]].next < now || (timers[ordered[cut]].next == now && ordered[cut] < nowId))
        invariant cut <= |ordered|
        invariant forall i :: 0 <= i < cut ==> timers[ordered[i]].next <= now
      {
        cut := cut + 1;
      }
      assert cut < |ordered| ==> forall i :: cut <= i < |ordered| ==> now <= timers[ordered[i]].next;
      while cut < |ordered| && timers[ordered[cut]].next == now
        invariant cut <= |ordered|
        invariant forall i :: 0 <= i < cut ==> timers[ordered[i]].next <= now
        invariant forall i :: cut <= i < |ordered| ==> now <= timers[ordered[i]].next
      {
        cut := cut + 1;
      }
      assert cut < |ordered| ==>
        forall i :: cut <= i < |ordered| ==> timers[ordered[cut]].next <= timers[ordered[i]].next;
    }

    /** `listExpiredCb`: hands out the timers that are due, in deadline order (all of them
        after a clock rollover); recurring ones are armed again, the others lose their
        callback. */
    method ListExpired(now: Time, nowId: TimerId) returns (handed: seq<TimerId>, rollover: bool)
      requires Valid()
      modifies this
      ensures Valid() && Ordered(old(timers), handed)
      ensures rollover <==>
        && old(ordered) != []
        && (if old(previousTime) >= HOUR then now + HOUR < old(previousTime) else now < old(previousTime))
      ensures forall id :: id in handed <==>
        id in old(timers) && old(timers)[id].armed && (rollover || old(timers)[id].next <= now)
      ensures timers.Keys == old(timers).Keys
      ensures forall id :: id in timers && id !in handed ==> timers[id] == old(timers)[id]
      ensures forall id :: id in handed && old(timers)[id].recurring ==>
        var t := old(timers)[id]; timers[id] == Timer((now + t.ms) % U64, t.ms, true, true)
      ensures forall id :: id in handed && !old(timers)[id].recurring ==>
        var t := old(timers)[id]; timers[id] == Timer(t.next, t.ms, false, false)
      ensures tickled == old(tickled)
      ensures previousTime == if old(ordered) == [] then old(previousTime) else now
      ensures Evolves(old(timers), timers, handed)
    {
      hide Ordered, Before, Evolves;
      NothingHanded(timers);
      if ordered == [] {
        return [], false;
      }
      rollover := DetectRollover(now);
      FirstFirst();
      if !rollover && timers[ordered[0]].next > now {
        return [], rollover;
      }
      var cut := |ordered|;
      if !rollover {
        cut := ExpiredPrefix(now, nowId);
      }
      ghost var was := ordered;
      handed := ordered[..cut];
      PrefixOf(timers, was, cut);
      ordered := ordered[cut..];
      Rearm(handed, now);
      FiredEvolves(old(timers), handed, now, timers);
    }

    /** No deadline is before that of the first timer. */
    lemma FirstFirst()
      requires Valid() && ordered != []
      ensures forall i :: 0 <= i < |ordered| ==> ordered[i] in timers
      ensures forall i :: 0 <= i < |ordered| ==> timers[ordered[0]].next <= timers[ordered[i]].next
    {}

    /** One timer that was taken out: back into the set with its next deadline, or unarmed. */
    method RearmOne(id: TimerId, now: Time)
      requires Ordered(timers, ordered) && id in timers && id !in ordered && timers[id].armed
      modifies this`timers, this`ordered
      ensures timers == old(timers)[id := Fired(old(timers)[id], now)]
      ensures Ordered(timers, ordered)
      ensures forall x :: x in ordered <==> x in old(ordered) || (x == id && timers[id].armed)
    {
      var t := timers[id];
      OrderedFrame(timers, ordered, id, Fired(t, now));
      if t.recurring {
        timers := timers[id := t.(next := (now + t.ms) % U64)];
        InsertKeeps(timers, ordered, id);
        ordered := Insert(timers, ordered, id);
      } else {
        timers := timers[id := t.(armed := false)];
      }
    }

    /** The loop of `listExpiredCb` over the timers it took out. */
    method Rearm(handed: seq<TimerId>, now: Time)
      requires Ordered(timers, ordered) && Ordered(timers, handed)
      requires forall i :: 0 <= i < |handed| ==> handed[i] !in ordered && timers[handed[i]].armed
      requires forall id :: id in timers ==> (timers[id].armed <==> id in ordered || id in handed)
      modifies this`timers, this`ordered
      ensures Valid()
      ensures timers ==
        map id | id in old(timers) :: if id in handed then Fired(old(timers)[id], now) else old(timers)[id]
    {
      ghost var m := timers;
      for i := 0 to |handed|
        invariant timers.Keys == m.Keys
        invariant forall id :: id in m ==> timers[id] == if id in handed[..i] then Fired(m[id], now) else m[id]
        invariant Ordered(timers, ordered)
        invariant forall id :: id in ordered <==> id in m && timers[id].armed && id !in handed[i..]
      {
        TakeNext(handed, i, m);
        RearmOne(handed[i], now);
      }
      assert handed[..|handed|] == handed;
    }
  }

  /** The next element of a list without repetitions. */
  lemma TakeNext(s: seq<TimerId>, i: nat, m: Table)
    requires i < |s| && Ordered(m, s)
    ensures forall x :: x in s[..i + 1] <==> x in s[..i] || x == s[i]
    ensures forall x :: x in s[i..] <==> x in s[i + 1..] || x == s[i]
    ensures s[i] !in s[..i] && s[i] !in s[i + 1..]
  {
    assert s[..i + 1] == s[..i] + [s[i]];
    assert s[i..] == [s[i]] + s[i + 1..];
  }

  lemma PrefixOf(m: Table, s: seq<TimerId>, cut: nat)
    requires Ordered(m, s) && cut <= |s|
    ensures Ordered(m, s[..cut]) && Ordered(m, s[cut..])
    ensures forall x :: x in s <==> x in s[..cut] || x in s[cut..]
    ensures forall i :: 0 <= i < cut ==> s[..cut][i] !in s[cut..]
  {
    assert s == s[..cut] + s[cut..];
  }
}
