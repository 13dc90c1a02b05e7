/** Array containers: a set of 16-bit values as a strictly increasing array, and
    the galloping search over it. */
module ArrayContainers {

  /** Strictly increasing 16-bit values. */
  predicate Increasing(a: seq<nat>) {
    && (forall i :: 0 <= i < |a| ==> a[i] <= 0xFFFF)
    && (forall i, j :: 0 <= i < j < |a| ==> a[i] < a[j])
  }

  /** Every value of [first, last] is in the array. */
  ghost predicate Covers(a: seq<nat>, first: nat, last: nat) {
    forall x: nat :: first <= x <= last ==> x in a
  }

  /** `binarySearch`: where `key` is, or -(k+1) where k values are below it. */
  method BinarySearch(a: seq<nat>, key: nat) returns (r: int)
    requires Increasing(a)
    ensures r >= 0 ==> r < |a| && a[r] == key
    ensures r < 0 ==> -r - 1 <= |a|
    ensures r < 0 ==> forall i :: 0 <= i < -r - 1 ==> a[i] < key
    ensures r < 0 ==> forall i :: -r - 1 <= i < |a| ==> a[i] > key
  {
    var low, high := 0, |a| - 1;
    while low <= high
      invariant 0 <= low <= high + 1 <= |a|
      invariant forall i :: 0 <= i < low ==> a[i] < key
      invariant forall i :: high < i < |a| ==> a[i] > key
    {
      var middle := (low + high) / 2;
      if a[middle] < key {
        low := middle + 1;
      } else if a[middle] > key {
        high := middle - 1;
      } else {
        return middle;
      }
    }
    return -(low + 1);
  }

  /** `advanceUntil`: steps of doubling length, then binary search; the first
      index after `pos` whose value reaches `min`, or the length. */
  method AdvanceUntil(a: seq<nat>, pos: int, min: nat) returns (r: nat)
    requires Increasing(a) && -1 <= pos
    ensures pos < r && (r <= |a| || r == pos + 1)
    ensures forall i :: pos < i < r && i < |a| ==> a[i] < min
    ensures r < |a| ==> a[r] >= min
  {
    var lower := pos + 1;
    if lower >= |a| || a[lower] >= min {
      return lower;
    }
    var span := 1;
    while lower + span < |a| && a[lower + span] < min
      invariant span >= 1 && lower + span / 2 < |a| && a[lower + span / 2] < min
      decreases |a| - span
    {
      span := span * 2;
    }
    var upper := if lower + span < |a| then lower + span else |a| - 1;
    if a[upper] == min {
      return upper;
    }
    if a[upper] < min {
      return |a|;
    }
    lower := lower + span / 2;
    while lower + 1 != upper
      invariant pos < lower < upper < |a| && a[lower] < min < a[upper]
      decreases upper - lower
    {
      var mid := (lower + upper) / 2;
      if a[mid] == min {
        return mid;
      } else if a[mid] < min {
        lower := mid;
      } else {
        upper := mid;
      }
    }
    return upper;
  }

  /** In a strictly increasing array values grow at least as fast as indices. */
  lemma {:induction false} GrowsWithIndex(a: seq<nat>, i: nat, j: nat)
    requires Increasing(a) && i <= j < |a|
    ensures a[j] - a[i] >= j - i
    decreases j - i
  {
    if i == j {
    } else {
      GrowsWithIndex(a, i, j - 1);
    }
  }

  /** [first, last] is all in the array exactly when it fills the places between
      its two ends. */
  lemma RangeFills(a: seq<nat>, s: nat, e: nat, first: nat, last: nat)
    requires Increasing(a) && first <= last
    requires s <= |a| && (forall i :: 0 <= i < s ==> a[i] < first) && (s < |a| ==> a[s] >= first)
    requires s <= e <= |a| && (forall i :: s <= i < e ==> a[i] < last) && (e < |a| ==> a[e] >= last)
    ensures Covers(a, first, last)
      <==> s < |a| && e < |a| && e - s == last - first && a[s] == first && a[e] == last
  {
    if s < |a| && e < |a| && e - s == last - first && a[s] == first && a[e] == last {
      forall x: nat | first <= x <= last ensures x in a {
        var i := s + (x - first);
        GrowsWithIndex(a, s, i);
        GrowsWithIndex(a, i, e);
        assert a[i] == x;
      }
    }
    if Covers(a, first, last) {
      assert first in a && last in a;
      GrowsWithIndex(a, s, e);
      EveryStep(a, s, e, first, last);
    }
  }

  lemma EveryStep(a: seq<nat>, s: nat, e: nat, first: nat, last: nat)
    requires Increasing(a) && s <= e < |a| && a[s] == first && a[e] == last
    requires Covers(a, first, last)
    ensures e - s >= last - first
    decreases e - s
  {
    if s == e {
    } else {
      assert first + 1 in a;
      var i :| 0 <= i < |a| && a[i] == first + 1;
      GrowsWithIndex(a, s, i);
      EveryStep(a, s + 1, e, first + 1, last);
    }
  }

  class ArrayContainer {
    /** The first `cardinality` entries of the buffer. */
    var values: seq<nat>

    constructor ()
      ensures values == []
    {
      values := [];
    }

    ghost predicate Valid()
      reads this
    {
      Increasing(values)
    }

    /** The set the array stands for. */
    ghost function Elements(): (s: set<nat>)
      reads this
      ensures forall x :: x in s <==> x in values
    {
      set x | x in values
    }

    /** `array_container_contains`: binary search down to 16 entries, then a
        linear one that stops at the first larger value. */
    method Contains(pos: nat) returns (found: bool)
      requires Valid()
      ensures found <==> pos in Elements()
    {
      var low, high := 0, |values| - 1;
      while high >= low + 16
        invariant 0 <= low <= high + 1 <= |values|
        invariant forall i :: 0 <= i < low ==> values[i] < pos
        invariant forall i :: high < i < |values| ==> values[i] > pos
      {
        var middle := (low + high) / 2;
        if values[middle] < pos {
          low := middle + 1;
        } else if values[middle] > pos {
          high := middle - 1;
        } else {
          return true;
        }
      }
      var i := low;
      while i <= high
        invariant low <= i <= high + 1
        invariant forall k :: 0 <= k < i ==> values[k] < pos
      {
        var v := values[i];
        if v == pos {
          return true;
        }
        if v > pos {
          return false;
        }
        i := i + 1;
      }
      return false;
    }

    /** `array_container_contains_range` on [start, end), with the truncation of both ends
        to 16 bits: a range that this leaves empty is not found, and one to 0 ends at 0xFFFF. */
    method ContainsRange(start: nat, end: nat) returns (found: bool)
      requires Valid()
      ensures var first, last := start % 0x10000, (end - 1) % 0x10000;
        found <==> first <= last && Covers(values, first, last)
    {
      var first, last := start % 0x10000, (end - 1) % 0x10000;
      var s := AdvanceUntil(values, -1, first);
      var e := AdvanceUntil(values, s - 1, last);
      if |values| > 0 {
        GrowsWithIndex(values, 0, |values| - 1);
      }
      found := s < |values| && e < |values| && (e - s) % 0x10000 == last - first
               && values[s] == first && values[e] == last;
      if first <= last {
        RangeFills(values, s, e, first, last);
        assert s < |values| && e < |values| ==> e - s < 0x10000;
      }
    }

    /** `array_container_try_add`: 1 added, 0 already there, -1 no room. */
    method TryAdd(value: nat, maxCardinality: nat) returns (code: int)
      requires Valid() && value <= 0xFFFF
      modifies this
      ensures Valid()
      ensures code == if value in old(Elements()) then 0 else if |old(values)| < maxCardinality then 1 else -1
      ensures Elements() == old(Elements()) + (if code == 1 then {value} else {})
      ensures code != 1 ==> values == old(values)
    {
      var n := |values|;
      if (n == 0 || values[n - 1] < value) && n < maxCardinality {
        values := values + [value];
        return 1;
      }
      var loc := BinarySearch(values, value);
      if loc >= 0 {
        return 0;
      } else if n < maxCardinality {
        var at := -loc - 1;
        ghost var was := values;
        values := values[..at] + [value] + values[at..];
        InsertKeeps(was, at, value);
        return 1;
      } else {
        return -1;
      }
    }

    /** `array_container_remove`: the answer is whether the value was there. */
    method Remove(pos: nat) returns (present: bool)
      requires Valid()
      modifies this
      ensures Valid()
      ensures present <==> pos in old(Elements())
      ensures Elements() == old(Elements()) - {pos}
    {
      var idx := BinarySearch(values, pos);
      present := idx >= 0;
      if present {
        EraseKeeps(values, idx);
        values := values[..idx] + values[idx + 1..];
      }
    }
  }

  lemma InsertKeeps(a: seq<nat>, at: nat, v: nat)
    requires Increasing(a) && at <= |a| && v <= 0xFFFF
    requires forall i :: 0 <= i < at ==> a[i] < v
    requires forall i :: at <= i < |a| ==> a[i] > v
    ensures Increasing(a[..at] + [v] + a[at..])
    ensures forall x :: x in a[..at] + [v] + a[at..] <==> x in a || x == v
  {
    var b := a[..at] + [v] + a[at..];
    assert forall i :: 0 <= i < |b| ==> b[i] == if i < at then a[i] else if i == at then v else a[i - 1];
    forall x ensures x in b <==> x in a || x == v {
      if x in a {
        var i :| 0 <= i < |a| && a[i] == x;
        assert b[if i < at then i else i + 1] == x;
      }
      assert b[at] == v;
    }
  }

  lemma EraseKeeps(a: seq<nat>, k: nat)
    requires Increasing(a) && k < |a|
    ensures Increasing(a[..k] + a[k + 1..])
    ensures forall x :: x in a[..k] + a[k + 1..] <==> x in a && x != a[k]
  {
    var b := a[..k] + a[k + 1..];
    assert forall i :: 0 <= i < |b| ==> b[i] == if i < k then a[i] else a[i + 1];
    forall x ensures x in b <==> x in a && x != a[k] {
      if x in a && x != a[k] {
        var i :| 0 <= i < |a| && a[i] == x;
        assert b[if i < k then i else i - 1] == x;
      }
    }
  }
}
