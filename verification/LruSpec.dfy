/** A bounded cache with deadlines, as the list of its entries from the most to the least
    recently used. */
module LruSpec {
  import opened Bits

  datatype Entry<V> = Entry(key: int, val: V, ts: nat)

  /** `Set` carries the deadline; `Expire` the time to check against. */
  datatype Op<V> = Set(key: int, val: V, ts: nat) | Get(key: int) | Del(key: int) | Expire(ts: nat)

  ghost predicate Unique<V(!new)>(order: seq<Entry<V>>) {
    forall i, j :: 0 <= i < j < |order| ==> order[i].key != order[j].key
  }

  ghost predicate Present<V(!new)>(order: seq<Entry<V>>, key: int) {
    exists e :: e in order && e.key == key
  }

  ghost function Filter<V(!new)>(order: seq<Entry<V>>, keep: Entry<V> -> bool): (r: seq<Entry<V>>)
    ensures |r| <= |order|
    ensures forall e :: e in r <==> e in order && keep(e)
  {
    if order == [] then []
    else
      assert order == [order[0]] + order[1..];
      if keep(order[0]) then [order[0]] + Filter(order[1..], keep)
      else Filter(order[1..], keep)
  }

  ghost function OtherThan<V(!new)>(key: int): Entry<V> -> bool {
    (e: Entry<V>) => e.key != key
  }

  ghost function LaterThan<V(!new)>(ts: nat): Entry<V> -> bool {
    (e: Entry<V>) => e.ts > ts
  }

  ghost function Without<V(!new)>(order: seq<Entry<V>>, key: int): (r: seq<Entry<V>>)
    ensures |r| <= |order|
    ensures forall e :: e in r <==> e in order && e.key != key
  {
    Filter(order, OtherThan(key))
  }

  /** The entries whose deadline is later than `ts`, in the same order. */
  ghost function Alive<V(!new)>(order: seq<Entry<V>>, ts: nat): (r: seq<Entry<V>>)
    ensures |r| <= |order|
    ensures forall e :: e in r <==> e in order && e.ts > ts
  {
    Filter(order, LaterThan(ts))
  }

  /** `getMaxAllowedSize`, a sum of two `size_t`. */
  function Allowed(maxSize: nat, elasticity: nat): nat { (maxSize + elasticity) % U64 }

  /** Nothing happens below the allowed size; at it, only the maxSize most recent stay. */
  ghost function Pruned<V(!new)>(order: seq<Entry<V>>, maxSize: nat, elasticity: nat): (r: seq<Entry<V>>)
    ensures r <= order
  {
    if maxSize == 0 || |order| < Allowed(maxSize, elasticity) || |order| <= maxSize then order else order[..maxSize]
  }

  ghost function Find<V(!new)>(order: seq<Entry<V>>, key: int): (e: Entry<V>)
    requires Present(order, key)
    ensures e in order && e.key == key
  {
    var e :| e in order && e.key == key; e
  }

  ghost function Apply<V(!new)>(order: seq<Entry<V>>, op: Op<V>, maxSize: nat, elasticity: nat): seq<Entry<V>> {
    match op
    case Set(k, v, ts) =>
      if Present(order, k) then [Entry(k, v, ts)] + Without(order, k)
      else Pruned([Entry(k, v, ts)] + order, maxSize, elasticity)
    case Get(k) => if Present(order, k) then [Find(order, k)] + Without(order, k) else order
    case Del(k) => Without(order, k)
    case Expire(ts) => Alive(order, ts)
  }

  /** The cache after a run of operations on an empty one. */
  ghost function Final<V(!new)>(ops: seq<Op<V>>, maxSize: nat, elasticity: nat): seq<Entry<V>> {
    if ops == [] then []
    else Apply(Final(ops[..|ops| - 1], maxSize, elasticity), ops[|ops| - 1], maxSize, elasticity)
  }

  ghost predicate Descending<V(!new)>(order: seq<Entry<V>>, rank: int -> int) {
    forall i, j :: 0 <= i < j < |order| ==> rank(order[i].key) > rank(order[j].key)
  }

  /** A list is in order when its tail is and its head is above the tail. */
  lemma DescendingCons<V(!new)>(head: Entry<V>, tail: seq<Entry<V>>, rank: int -> int)
    ensures Descending([head] + tail, rank) <==>
      Descending(tail, rank) && forall e :: e in tail ==> rank(head.key) > rank(e.key)
  {
    var all := [head] + tail;
    if Descending(all, rank) {
      forall i, j | 0 <= i < j < |tail|
        ensures rank(tail[i].key) > rank(tail[j].key)
      {
        assert tail[i] == all[i + 1] && tail[j] == all[j + 1];
      }
      forall e | e in tail
        ensures rank(head.key) > rank(e.key)
      {
        var j :| 0 <= j < |tail| && tail[j] == e;
        assert all[0] == head && all[j + 1] == e;
      }
    }
  }

  lemma {:induction false} FilterDescending<V(!new)>(order: seq<Entry<V>>, keep: Entry<V> -> bool, rank: int -> int)
    requires Descending(order, rank)
    ensures Descending(Filter(order, keep), rank)
  {
    if order == [] {
    } else {
      var head, tail := order[0], order[1..];
      assert order == [head] + tail;
      DescendingCons(head, tail, rank);
      FilterDescending(tail, keep, rank);
      DescendingCons(head, Filter(tail, keep), rank);
    }
  }

  /** The index of the last Set of `key`, or -1. */
  ghost function LastSet<V(!new)>(ops: seq<Op<V>>, key: int): (k: int)
    ensures -1 <= k < |ops|
    ensures k >= 0 ==> ops[k].Set? && ops[k].key == key
  {
    if ops == [] then -1
    else
      var last := |ops| - 1;
      if ops[last].Set? && ops[last].key == key then last else LastSet(ops[..last], key)
  }

  /** The index of the last Set or Get of `key`, or -1. */
  ghost function LastUse<V(!new)>(ops: seq<Op<V>>, key: int): (k: int)
    ensures -1 <= k < |ops|
  {
    if ops == [] then -1
    else
      var last := |ops| - 1;
      if (ops[last].Set? || ops[last].Get?) && ops[last].key == key then last else LastUse(ops[..last], key)
  }

  ghost function UseRank<V(!new)>(ops: seq<Op<V>>): int -> int {
    key => LastUse(ops, key)
  }

  /** Each entry is what the last Set of its key wrote. */
  ghost predicate Faithful<V(!new)>(order: seq<Entry<V>>, ops: seq<Op<V>>) {
    forall e :: e in order ==> LastSet(ops, e.key) >= 0 && ops[LastSet(ops, e.key)] == Set(e.key, e.val, e.ts)
  }

  /** Using other keys does not change the order. */
  lemma SameRanks<V(!new)>(order: seq<Entry<V>>, ops: seq<Op<V>>)
    requires |ops| > 0 && Descending(order, UseRank(ops[..|ops| - 1]))
    requires ops[|ops| - 1].Set? || ops[|ops| - 1].Get? ==> !Present(order, ops[|ops| - 1].key)
    ensures Descending(order, UseRank(ops))
    ensures forall e :: e in order ==> LastUse(ops, e.key) < |ops| - 1
  {
    forall e | e in order
      ensures LastUse(ops, e.key) == LastUse(ops[..|ops| - 1], e.key)
    {
    }
  }

  /** A use brings its entry to the front. */
  lemma FrontRank<V(!new)>(front: Entry<V>, rest: seq<Entry<V>>, ops: seq<Op<V>>)
    requires |ops| > 0 && Descending(rest, UseRank(ops[..|ops| - 1])) && !Present(rest, front.key)
    requires (ops[|ops| - 1].Set? || ops[|ops| - 1].Get?) && ops[|ops| - 1].key == front.key
    ensures Descending([front] + rest, UseRank(ops))
  {
    SameRanks(rest, ops);
    DescendingCons(front, rest, UseRank(ops));
  }

  /** Over every run: the entries stand in the order of their last use, the latest first. */
  lemma {:induction false} RunOrder<V(!new)>(ops: seq<Op<V>>, maxSize: nat, elasticity: nat)
    ensures Descending(Final(ops, maxSize, elasticity), UseRank(ops))
  {
    if ops == [] {
    } else {
      var before, op := ops[..|ops| - 1], ops[|ops| - 1];
      var order, rank := Final(before, maxSize, elasticity), UseRank(before);
      RunOrder(before, maxSize, elasticity);
      match op
      case Set(k, v, ts) =>
        var rest := if Present(order, k) then Without(order, k) else order;
        FilterDescending(order, OtherThan(k), rank);
        FrontRank(Entry(k, v, ts), rest, ops);
      case Get(k) =>
        if Present(order, k) {
          FilterDescending(order, OtherThan(k), rank);
          FrontRank(Find(order, k), Without(order, k), ops);
        } else {
          SameRanks(order, ops);
        }
      case Del(k) =>
        FilterDescending(order, OtherThan(k), rank);
        SameRanks(Without(order, k), ops);
      case Expire(ts) =>
        FilterDescending(order, LaterThan(ts), rank);
        SameRanks(Alive(order, ts), ops);
    }
  }

  /** Over every run: an entry holds the value and the deadline its key was last set to. */
  lemma {:induction false} RunValues<V(!new)>(ops: seq<Op<V>>, maxSize: nat, elasticity: nat)
    ensures Faithful(Final(ops, maxSize, elasticity), ops)
  {
    if ops == [] {
    } else {
      var before, op := ops[..|ops| - 1], ops[|ops| - 1];
      var order := Final(before, maxSize, elasticity);
      RunValues(before, maxSize, elasticity);
      forall e | e in Final(ops, maxSize, elasticity)
        ensures LastSet(ops, e.key) >= 0 && ops[LastSet(ops, e.key)] == Set(e.key, e.val, e.ts)
      {
        if !(op.Set? && op.key == e.key) {
          KeptEntry(order, op, maxSize, elasticity, e);
        } else {
          SetEntry(order, op, maxSize, elasticity, e);
        }
      }
    }
  }

  /** Every operation but a Set of its own key leaves an entry as it was. */
  lemma KeptEntry<V(!new)>(order: seq<Entry<V>>, op: Op<V>, maxSize: nat, elasticity: nat, e: Entry<V>)
    requires e in Apply(order, op, maxSize, elasticity) && !(op.Set? && op.key == e.key)
    ensures e in order
  {}

  lemma SetEntry<V(!new)>(order: seq<Entry<V>>, op: Op<V>, maxSize: nat, elasticity: nat, e: Entry<V>)
    requires e in Apply(order, op, maxSize, elasticity) && op.Set? && op.key == e.key
    ensures e == Entry(op.key, op.val, op.ts)
  {
  }

  /** The most entries there can be between operations. */
  function Room(maxSize: nat, elasticity: nat): nat {
    if Allowed(maxSize, elasticity) > maxSize then Allowed(maxSize, elasticity) - 1 else maxSize
  }

  /** That is the limit with its elasticity, or the limit alone where their sum wraps around. */
  lemma RoomIs(maxSize: nat, elasticity: nat)
    requires maxSize < U64 && elasticity < U64
    ensures Room(maxSize, elasticity) ==
      if maxSize + elasticity < U64 then maxSize + (if elasticity > 1 then elasticity - 1 else 0) else maxSize
  {}

  /** Over every run with a limit: the size stays below the limit and its elasticity. */
  lemma {:induction false} RunSize<V(!new)>(ops: seq<Op<V>>, maxSize: nat, elasticity: nat)
    requires maxSize > 0
    ensures |Final(ops, maxSize, elasticity)| <= Room(maxSize, elasticity)
  {
    hide Allowed;
    if ops == [] {
    } else {
      var before, op := ops[..|ops| - 1], ops[|ops| - 1];
      var order := Final(before, maxSize, elasticity);
      RunSize(before, maxSize, elasticity);
      if (op.Set? || op.Get?) && Present(order, op.key) {
        DropsOne(order, op.key);
      }
    }
  }

  lemma {:induction false} DropsOne<V(!new)>(order: seq<Entry<V>>, key: int)
    requires Present(order, key)
    ensures |Without(order, key)| < |order|
  {
    if order[0].key == key {
    } else {
      assert order == [order[0]] + order[1..];
      DropsOne(order[1..], key);
    }
  }

  /** The deadline of the last Set was not reached by a check after it, and the key was not
      deleted after it. */
  ghost predicate Current<V(!new)>(ops: seq<Op<V>>, key: int) {
    var k := LastSet(ops, key);
    k >= 0 && forall j :: k < j < |ops| ==>
      (ops[j].Del? ==> ops[j].key != key) && (ops[j].Expire? ==> ops[j].ts < ops[k].ts)
  }

  /** A Set of an absent key that makes the cache prune. */
  ghost predicate Overflows<V(!new)>(order: seq<Entry<V>>, op: Op<V>, maxSize: nat, elasticity: nat) {
    op.Set? && !Present(order, op.key) && 0 < maxSize <= |order| && Allowed(maxSize, elasticity) <= |order| + 1
  }

  /** ... while at least `maxSize` - 1 other keys were used more recently than `key`. */
  ghost predicate Evicts<V(!new)>(order: seq<Entry<V>>, op: Op<V>, maxSize: nat, elasticity: nat, key: int) {
    Overflows(order, op, maxSize, elasticity) && exists i :: maxSize - 1 <= i < |order| && order[i].key == key
  }

  /** Such a Set came after the last Set of `key`. */
  ghost predicate EvictedSince<V(!new)>(ops: seq<Op<V>>, maxSize: nat, elasticity: nat, key: int) {
    exists j :: LastSet(ops, key) < j < |ops| && EvictsAt(ops, j, maxSize, elasticity, key)
  }

  ghost predicate EvictsAt<V(!new)>(ops: seq<Op<V>>, j: int, maxSize: nat, elasticity: nat, key: int)
    requires 0 <= j < |ops|
  {
    Evicts(Final(ops[..j], maxSize, elasticity), ops[j], maxSize, elasticity, key)
  }

  /** Over every run a key is present exactly when it is current and was not evicted since it
      was last set. */
  lemma {:induction false} RunPresence<V(!new)>(ops: seq<Op<V>>, maxSize: nat, elasticity: nat, key: int)
    ensures Present(Final(ops, maxSize, elasticity), key) <==>
      Current(ops, key) && !EvictedSince(ops, maxSize, elasticity, key)
  {
    hide Evicts, EvictedSince, Current, Apply;
    if ops == [] {
      NoneCurrent<V>(key);
    } else {
      var before, op := ops[..|ops| - 1], ops[|ops| - 1];
      var order := Final(before, maxSize, elasticity);
      RunPresence(before, maxSize, elasticity, key);
      RunValues(before, maxSize, elasticity);
      RunOrder(before, maxSize, elasticity);
      CurrentStep(ops, key);
      EvictedStep(ops, maxSize, elasticity, key);
      if op.Expire? {
        NoEviction(order, op, maxSize, elasticity, key);
        ExpireStep(order, op, maxSize, elasticity, key, before);
      } else {
        PresentStep(order, op, maxSize, elasticity, key, UseRank(before));
      }
    }
  }

  lemma NoneCurrent<V(!new)>(key: int)
    ensures !Current<V>([], key)
  {}

  lemma NoEviction<V(!new)>(order: seq<Entry<V>>, op: Op<V>, maxSize: nat, elasticity: nat, key: int)
    requires !op.Set?
    ensures !Evicts(order, op, maxSize, elasticity, key)
  {}

  lemma ExpireStep<V(!new)>(order: seq<Entry<V>>, op: Op<V>, maxSize: nat, elasticity: nat, key: int, ops: seq<Op<V>>)
    requires op.Expire? && Faithful(order, ops)
    ensures Present(Apply(order, op, maxSize, elasticity), key) <==>
      Present(order, key) && op.ts < ops[LastSet(ops, key)].ts
  {
    AliveIff(order, op.ts, key, ops);
  }

  lemma EvictedStep<V(!new)>(ops: seq<Op<V>>, maxSize: nat, elasticity: nat, key: int)
    requires |ops| > 0
    ensures var before, op := ops[..|ops| - 1], ops[|ops| - 1];
      EvictedSince(ops, maxSize, elasticity, key) <==>
        !(op.Set? && op.key == key)
        && (EvictedSince(before, maxSize, elasticity, key)
            || Evicts(Final(before, maxSize, elasticity), op, maxSize, elasticity, key))
  {
    hide Evicts, Final;
    var last := |ops| - 1;
    var before := ops[..last];
    forall j | 0 <= j < last
      ensures EvictsAt(ops, j, maxSize, elasticity, key) <==> EvictsAt(before, j, maxSize, elasticity, key)
    {
      assert before[..j] == ops[..j] && before[j] == ops[j];
    }
    if ops[last].Set? && ops[last].key == key {
      assert LastSet(ops, key) == last;
    } else {
      assert LastSet(ops, key) == LastSet(before, key);
      assert EvictsAt(ops, last, maxSize, elasticity, key)
        <==> Evicts(Final(before, maxSize, elasticity), ops[last], maxSize, elasticity, key);
    }
  }

  lemma CurrentStep<V(!new)>(ops: seq<Op<V>>, key: int)
    requires |ops| > 0
    ensures var before, op := ops[..|ops| - 1], ops[|ops| - 1];
      Current(ops, key) <==>
        if op.Set? && op.key == key then true
        else Current(before, key) && !(op.Del? && op.key == key)
             && (op.Expire? ==> op.ts < before[LastSet(before, key)].ts)
  {
    var before, op := ops[..|ops| - 1], ops[|ops| - 1];
    if !(op.Set? && op.key == key) {
      assert LastSet(ops, key) == LastSet(before, key);
      if Current(ops, key) {
        assert Current(before, key) by {
          assert forall j :: 0 <= j < |before| ==> before[j] == ops[j];
        }
      }
    }
  }

  lemma PresentStep<V(!new)>(order: seq<Entry<V>>, op: Op<V>, maxSize: nat, elasticity: nat, key: int, rank: int -> int)
    requires !op.Expire? && Descending(order, rank)
    ensures Present(Apply(order, op, maxSize, elasticity), key) <==>
      (op.Set? && op.key == key)
      || (Present(order, key) && !(op.Del? && op.key == key) && !Evicts(order, op, maxSize, elasticity, key))
  {
    if op.Set? && !Present(order, op.key) {
      PrunedPresence(order, op, maxSize, elasticity, key, rank);
    }
  }

  /** What is left after a new entry was put in front. */
  lemma PrunedPresence<V(!new)>(order: seq<Entry<V>>, op: Op<V>, maxSize: nat, elasticity: nat, key: int,
                                rank: int -> int)
    requires op.Set? && !Present(order, op.key) && Descending(order, rank)
    ensures Present(Pruned([Entry(op.key, op.val, op.ts)] + order, maxSize, elasticity), key) <==>
      op.key == key || (Present(order, key) && !Evicts(order, op, maxSize, elasticity, key))
  {
    hide Pruned, Evicts;
    var all := [Entry(op.key, op.val, op.ts)] + order;
    PrunedIs(all, maxSize, elasticity);
    if Overflows(order, op, maxSize, elasticity) {
      var kept: nat := maxSize - 1;
      assert all[..maxSize] == [all[0]] + order[..kept];
      assert all[0] in all[..maxSize];
      SplitPresence(order, kept, key, rank);
      EvictsIs(order, op, maxSize, elasticity, key);
    } else {
      assert all[0] in all;
      EvictsIs(order, op, maxSize, elasticity, key);
    }
  }

  lemma PrunedIs<V(!new)>(all: seq<Entry<V>>, maxSize: nat, elasticity: nat)
    ensures Pruned(all, maxSize, elasticity) ==
      if 0 < maxSize < |all| && Allowed(maxSize, elasticity) <= |all| then all[..maxSize] else all
  {}

  lemma EvictsIs<V(!new)>(order: seq<Entry<V>>, op: Op<V>, maxSize: nat, elasticity: nat, key: int)
    ensures Evicts(order, op, maxSize, elasticity, key) <==>
      Overflows(order, op, maxSize, elasticity) && Present(order[maxSize - 1..], key)
  {
    if Overflows(order, op, maxSize, elasticity) {
      var rest := order[maxSize - 1..];
      assert forall i :: maxSize - 1 <= i < |order| ==> order[i] == rest[i - (maxSize - 1)];
    }
  }

  /** A key stands in one place only. */
  lemma SplitPresence<V(!new)>(order: seq<Entry<V>>, kept: nat, key: int, rank: int -> int)
    requires kept <= |order| && Descending(order, rank)
    ensures Present(order[..kept], key) <==> Present(order, key) && !Present(order[kept..], key)
  {
    assert order == order[..kept] + order[kept..];
    forall e, d | e in order[..kept] && d in order[kept..]
      ensures e.key != d.key
    {
      var i :| 0 <= i < kept && order[i] == e;
      var j :| 0 <= j < |order[kept..]| && order[kept..][j] == d;
      assert order[kept + j] == d;
    }
  }

  lemma AliveIff<V(!new)>(order: seq<Entry<V>>, ts: nat, key: int, ops: seq<Op<V>>)
    requires Faithful(order, ops)
    ensures Present(Alive(order, ts), key) <==> Present(order, key) && ts < ops[LastSet(ops, key)].ts
  {
  }

  /** Dropping an expired entry does not change what is alive. */
  lemma {:induction false} AliveWithout<V(!new)>(order: seq<Entry<V>>, key: int, ts: nat)
    requires forall e :: e in order && e.key == key ==> e.ts <= ts
    ensures Alive(Without(order, key), ts) == Alive(order, ts)
  {
    if order == [] {
    } else {
      assert order == [order[0]] + order[1..];
      AliveWithout(order[1..], key, ts);
      if order[0].key != key {
        assert Without(order, key)[1..] == Without(order[1..], key);
      }
    }
  }

  lemma {:induction false} AliveAll<V(!new)>(order: seq<Entry<V>>, ts: nat)
    requires forall i :: 0 <= i < |order| ==> order[i].ts > ts
    ensures Alive(order, ts) == order
  {
    if order == [] {
    } else {
      AliveAll(order[1..], ts);
    }
  }
}
