/** Run containers: a set of 16-bit values as a sorted list of intervals.  A
    run {value, length} holds value, ..., value + length. */
module RunContainers {

  datatype Rle = Rle(value: nat, length: nat) {
    function End(): (e: nat) { value + length }

    predicate Holds(x: int) { value <= x <= End() }

    /** The last value as the source computes it, in a `uint16_t`. */
    function End16(): (e: nat)
      ensures e <= 0xFFFF && (End() - e) % 0x10000 == 0
    {
      (value + length) % 0x10000
    }
  }

  /** `x` is in one of the runs. */
  ghost predicate Has(runs: seq<Rle>, x: int) {
    exists i :: 0 <= i < |runs| && runs[i].Holds(x)
  }

  /** Sorted, disjoint and non-adjacent runs of 16-bit values. */
  predicate Canonical(runs: seq<Rle>) {
    && (forall i :: 0 <= i < |runs| ==> runs[i].End() <= 0xFFFF)
    && (forall i, j :: 0 <= i < j < |runs| ==> runs[i].End() + 1 < runs[j].value)
  }

  /** The set the runs stand for. */
  ghost function Elements(runs: seq<Rle>): (s: set<int>)
    ensures forall x :: x in s <==> 0 <= x <= 0xFFFF && Has(runs, x)
  {
    set x | 0 <= x <= 0xFFFF && Has(runs, x)
  }

  /** `a - b` in a `uint32_t`. */
  function Sub32(a: nat, b: nat): (d: nat)
    ensures b <= a < 0x1_0000_0000 ==> d == a - b
    ensures a < b <= a + 0x1_0000_0000 ==> d == a - b + 0x1_0000_0000 || (b == a + 0x1_0000_0000 && d == 0)
  {
    (a - b) % 0x1_0000_0000
  }

  /** What the loop of `run_container_contains_range` adds up from run `i` on if every whole
      run counts with its length. */
  ghost function Tally(runs: seq<Rle>, i: nat, end: nat): nat
    decreases |runs| - i
  {
    if i >= |runs| || runs[i].value >= end then 0
    else if runs[i].End() >= end then end - runs[i].value
    else runs[i].length + Tally(runs, i + 1, end)
  }

  /** The answer for a start beyond the universe: some run starts at its low half, and the
      lengths from there on are as long as the range. */
  ghost predicate FoundFar(runs: seq<Rle>, start: nat, end: nat) {
    exists k: nat :: k < |runs| && runs[k].value == start % 0x10000 && Tally(runs, k, end) >= Sub32(end, start + 1)
  }

  /** So a range of one value beyond the universe is found wherever a run starts at its low half. */
  lemma FarRangeIsFound(runs: seq<Rle>, k: nat, start: nat)
    requires k < |runs| && 0xFFFF < start < 0xFFFF_FFFF && runs[k].value == start % 0x10000
    ensures FoundFar(runs, start, start + 1)
  {
    assert Tally(runs, k, start + 1) >= Sub32(start + 1, start + 1);
  }

  lemma FarSeen(start: nat, stop: nat, length: nat)
    requires start < 0x1_0000_0000 && stop <= 0xFFFF && length <= 0xFFFF
    ensures start > 0xFFFF && stop >= start % 0x10000 ==> Sub32(stop, start) > length
  {}

  predicate Between(min: int, x: int, max: int) { min <= x <= max }

  ghost function Interval(min: int, max: int): (s: set<int>)
    ensures forall x :: x in s <==> min <= x <= max
  {
    set x | min <= x <= max && Between(min, x, max)
  }

  lemma HasConcat(a: seq<Rle>, b: seq<Rle>, x: int)
    ensures Has(a + b, x) <==> Has(a, x) || Has(b, x)
  {
    if i :| 0 <= i < |a| && a[i].Holds(x) {
      assert (a + b)[i].Holds(x);
    }
    if i :| 0 <= i < |b| && b[i].Holds(x) {
      assert (a + b)[|a| + i].Holds(x);
    }
    if i :| 0 <= i < |a + b| && (a + b)[i].Holds(x) {
      assert if i < |a| then a[i].Holds(x) else b[i - |a|].Holds(x);
    }
  }

  /** A set of runs cut at two places. */
  lemma HasSplit(runs: seq<Rle>, p: nat, s: nat, x: int)
    requires p <= s <= |runs|
    ensures Has(runs, x) <==> Has(runs[..p], x) || Has(runs[p..s], x) || Has(runs[s..], x)
  {
    HasConcat(runs[..p], runs[p..s], x);
    HasConcat(runs[..p] + runs[p..s], runs[s..], x);
    assert runs == runs[..p] + runs[p..s] + runs[s..];
  }

  lemma HasThree(a: seq<Rle>, b: seq<Rle>, c: seq<Rle>, x: int)
    ensures Has(a + b + c, x) <==> Has(a, x) || Has(b, x) || Has(c, x)
  {
    HasConcat(a, b, x);
    HasConcat(a + b, c, x);
  }

  /** Every run of `a` is separated from every run of `b`. */
  predicate Apart(a: seq<Rle>, b: seq<Rle>) {
    forall i, j :: 0 <= i < |a| && 0 <= j < |b| ==> a[i].End() + 1 < b[j].value
  }

  lemma CanonicalThree(a: seq<Rle>, b: seq<Rle>, c: seq<Rle>)
    requires Canonical(a) && Canonical(b) && Canonical(c)
    requires Apart(a, b) && Apart(b, c) && Apart(a, c)
    ensures Canonical(a + b + c)
  {
    CanonicalTwo(a, b);
    forall i, j | 0 <= i < |a + b| && 0 <= j < |c| ensures (a + b)[i].End() + 1 < c[j].value {}
    CanonicalTwo(a + b, c);
  }

  lemma CanonicalTwo(a: seq<Rle>, b: seq<Rle>)
    requires Canonical(a) && Canonical(b) && Apart(a, b)
    ensures Canonical(a + b)
  {
    var s := a + b;
    forall i, j | 0 <= i < j < |s| ensures s[i].End() + 1 < s[j].value {
      if j < |a| {
        assert s[i] == a[i] && s[j] == a[j];
      } else if i >= |a| {
        assert s[i] == b[i - |a|] && s[j] == b[j - |a|];
      } else {
        assert s[i] == a[i] && s[j] == b[j - |a|];
      }
    }
  }

  // ----------------------------------------------------------------- searching

  /** `interleavedBinarySearch`: the run that starts at `key`, or -(k+1) where
      k is the number of runs that start before `key`. */
  method InterleavedBinarySearch(runs: seq<Rle>, key: nat) returns (r: int)
    requires Canonical(runs) && key <= 0xFFFF
    ensures r >= 0 ==> r < |runs| && runs[r].value == key
    ensures r < 0 ==> -r - 1 <= |runs|
    ensures r < 0 ==> forall i :: 0 <= i < -r - 1 ==> runs[i].value < key
    ensures r < 0 ==> forall i :: -r - 1 <= i < |runs| ==> runs[i].value > key
  {
    var low, high := 0, |runs| - 1;
    while low <= high
      invariant 0 <= low <= high + 1 <= |runs|
      invariant forall i :: 0 <= i < low ==> runs[i].value < key
      invariant forall i :: high < i < |runs| ==> runs[i].value > key
    {
      var middle := (low + high) / 2;
      if runs[middle].value < key {
        low := middle + 1;
      } else if runs[middle].value > key {
        high := middle - 1;
      } else {
        return middle;
      }
    }
    return -(low + 1);
  }

  /** `rle16_find_run`: the run that holds `key`, or -(k+1) where k is the
      number of runs below it. */
  method FindRun(runs: seq<Rle>, key: nat) returns (r: int)
    requires Canonical(runs) && key <= 0xFFFF
    ensures r >= 0 ==> r < |runs| && runs[r].Holds(key)
    ensures r < 0 ==> -r - 1 <= |runs|
    ensures r < 0 ==> forall i :: 0 <= i < -r - 1 ==> runs[i].End() < key
    ensures r < 0 ==> forall i :: -r - 1 <= i < |runs| ==> key < runs[i].value
  {
    var low, high := 0, |runs| - 1;
    while low <= high
      invariant 0 <= low <= high + 1 <= |runs|
      invariant forall i :: 0 <= i < low ==> runs[i].End() < key
      invariant forall i :: high < i < |runs| ==> key < runs[i].value
    {
      hide Rle.End16;
      var middle := (low + high) / 2;
      var max := runs[middle].End16();
      if key > max {
        low := middle + 1;
      } else if key < runs[middle].value {
        high := middle - 1;
      } else {
        return middle;
      }
    }
    return -(low + 1);
  }

  /** `rle16_count_less`: how many of the first `n` runs end more than one below
      `key`, so that they cannot be merged with it. */
  method CountLess(runs: seq<Rle>, n: nat, key: nat) returns (c: nat)
    requires Canonical(runs) && n <= |runs| && key <= 0xFFFF
    ensures c <= n
    ensures forall i :: 0 <= i < c ==> runs[i].End() + 1 < key
    ensures forall i :: c <= i < n ==> key <= runs[i].End() + 1
  {
    if n == 0 {
      return 0;
    }
    var low, high := 0, n - 1;
    while low <= high
      invariant 0 <= low <= high + 1 <= n
      invariant forall i :: 0 <= i < low ==> runs[i].End() + 1 < key
      invariant forall i :: high < i < n ==> key < runs[i].value
    {
      hide Rle.End16;
      var middle := (low + high) / 2;
      var max := runs[middle].End16();
      if max + 1 < key {
        low := middle + 1;
      } else if key < runs[middle].value {
        high := middle - 1;
      } else {
        return middle;
      }
    }
    return low;
  }

  /** `rle16_count_greater`: how many runs start more than one above `key`. */
  method CountGreater(runs: seq<Rle>, key: nat) returns (c: nat)
    requires Canonical(runs) && key <= 0xFFFF
    ensures c <= |runs|
    ensures forall i :: |runs| - c <= i < |runs| ==> key + 1 < runs[i].value
    ensures forall i :: 0 <= i < |runs| - c ==> runs[i].value <= key + 1
  {
    if |runs| == 0 {
      return 0;
    }
    var low, high := 0, |runs| - 1;
    while low <= high
      invariant 0 <= low <= high + 1 <= |runs|
      invariant forall i :: 0 <= i < low ==> runs[i].End() < key
      invariant forall i :: high < i < |runs| ==> key + 1 < runs[i].value
    {
      hide Rle.End16;
      var middle := (low + high) / 2;
      var max := runs[middle].End16();
      if max < key {
        low := middle + 1;
      } else if key + 1 < runs[middle].value {
        high := middle - 1;
      } else {
        return |runs| - (middle + 1);
      }
    }
    return |runs| - low;
  }

  // ------------------------------------------------------- specification functions

  /** The runs after adding [min, max], where the first `less` runs stay below
      it and the runs from `from` on stay above it. */
  function Added(runs: seq<Rle>, min: nat, max: nat, less: nat, from: nat): (r: seq<Rle>)
    requires less <= from <= |runs| && min <= max
  {
    if less == from then runs[..less] + [Rle(min, max - min)] + runs[from..]
    else
      var lo := if runs[less].value < min then runs[less].value else min;
      var hi := if runs[from - 1].End() > max then runs[from - 1].End() else max;
      runs[..less] + [Rle(lo, if hi >= lo then hi - lo else 0)] + runs[from..]
  }

  /** Adding an interval is union, and the runs stay canonical. */
  lemma AddedIsUnion(runs: seq<Rle>, min: nat, max: nat, less: nat, from: nat)
    requires Canonical(runs) && less <= from <= |runs| && min <= max <= 0xFFFF
    requires forall i :: 0 <= i < less ==> runs[i].End() + 1 < min
    requires forall i :: less <= i < from ==> min <= runs[i].End() + 1 && runs[i].value <= max + 1
    requires forall i :: from <= i < |runs| ==> max + 1 < runs[i].value
    ensures Canonical(Added(runs, min, max, less, from))
    ensures Elements(Added(runs, min, max, less, from)) == Elements(runs) + Interval(min, max)
  {
    hide Has;
    var r := Added(runs, min, max, less, from);
    var mid := [r[less]];
    assert r == runs[..less] + mid + runs[from..];
    CanonicalThree(runs[..less], mid, runs[from..]);
    forall x
      ensures Has(r, x) <==> Has(runs, x) || min <= x <= max
    {
      HasThree(runs[..less], mid, runs[from..], x);
      HasSplit(runs, less, from, x);
      AddedMiddle(runs, min, max, less, from, mid[0], x);
      HasOne(mid[0], x);
    }
  }

  lemma HasOne(run: Rle, x: int)
    ensures Has([run], x) <==> run.Holds(x)
  {
    assert [run][0] == run;
  }

  /** The merged run holds the interval and everything it was merged with. */
  lemma AddedMiddle(runs: seq<Rle>, min: nat, max: nat, less: nat, from: nat, m: Rle, x: int)
    requires Canonical(runs) && less <= from <= |runs| && min <= max <= 0xFFFF
    requires forall i :: less <= i < from ==> min <= runs[i].End() + 1 && runs[i].value <= max + 1
    requires m == Added(runs, min, max, less, from)[less]
    ensures m.Holds(x) <==> Has(runs[less..from], x) || min <= x <= max
  {
    var part := runs[less..from];
    if less < from {
      var first, last := runs[less], runs[from - 1];
      assert part[0] == first && part[|part| - 1] == last;
      assert min <= runs[less].End() + 1 && runs[from - 1].value <= max + 1;
      if m.Holds(x) && !(min <= x <= max) {
        if x < min { assert part[0].Holds(x); } else { assert part[|part| - 1].Holds(x); }
      }
      if i :| 0 <= i < |part| && part[i].Holds(x) {
        assert part[i] == runs[less + i];
        assert i == 0 || runs[less].End() + 1 < runs[less + i].value;
        assert less + i == from - 1 || runs[less + i].End() + 1 < runs[from - 1].value;
      }
    } else {
      assert part == [];
    }
  }

  /** The runs after removing [min, max], where the first `p` runs stay below it
      and the runs from `s` on stay above it. */
  function Removed(runs: seq<Rle>, min: nat, max: nat, p: nat, s: nat): (r: seq<Rle>)
    requires p <= s <= |runs|
  {
    runs[..p] + Pieces(runs, min, max, p, s) + runs[s..]
  }

  /** What is left of the runs that meet [min, max]. */
  function Pieces(runs: seq<Rle>, min: nat, max: nat, p: nat, s: nat): (r: seq<Rle>)
    requires p <= s <= |runs|
  {
    if p == s then [] else Left(runs[p], min) + Right(runs[s - 1], max)
  }

  /** The part of a run below `min`. */
  function Left(run: Rle, min: nat): (r: seq<Rle>) {
    if run.value < min then [Rle(run.value, min - 1 - run.value)] else []
  }

  /** The part of a run above `max`. */
  function Right(run: Rle, max: nat): (r: seq<Rle>) {
    if run.End() > max then [Rle(max + 1, run.End() - (max + 1))] else []
  }

  /** Removing an interval is difference, and the runs stay canonical. */
  lemma RemovedIsDifference(runs: seq<Rle>, min: nat, max: nat, p: nat, s: nat)
    requires Canonical(runs) && p <= s <= |runs| && min <= max <= 0xFFFF
    requires forall i :: 0 <= i < p ==> runs[i].End() < min
    requires forall i :: p <= i < s ==> min <= runs[i].End() && runs[i].value <= max
    requires forall i :: s <= i < |runs| ==> max < runs[i].value
    ensures Canonical(Removed(runs, min, max, p, s))
    ensures Elements(Removed(runs, min, max, p, s)) == Elements(runs) - Interval(min, max)
  {
    hide Pieces, Has;
    var r := Removed(runs, min, max, p, s);
    PiecesCanonical(runs, min, max, p, s);
    PiecesBehind(runs, min, max, p, s);
    PiecesBefore(runs, min, max, p, s);
    CanonicalThree(runs[..p], Pieces(runs, min, max, p, s), runs[s..]);
    forall x
      ensures Has(r, x) <==> Has(runs, x) && !(min <= x <= max)
    {
      HasThree(runs[..p], Pieces(runs, min, max, p, s), runs[s..], x);
      HasSplit(runs, p, s, x);
      PiecesHold(runs, min, max, p, s, x);
      Outside(runs, min, max, p, s, x);
    }
  }

  lemma Outside(runs: seq<Rle>, min: nat, max: nat, p: nat, s: nat, x: int)
    requires p <= s <= |runs|
    requires forall i :: 0 <= i < p ==> runs[i].End() < min
    requires forall i :: s <= i < |runs| ==> max < runs[i].value
    ensures Has(runs[..p], x) ==> x < min
    ensures Has(runs[s..], x) ==> max < x
  {}

  lemma PiecesCanonical(runs: seq<Rle>, min: nat, max: nat, p: nat, s: nat)
    requires Canonical(runs) && p <= s <= |runs| && min <= max <= 0xFFFF
    requires forall i :: p <= i < s ==> min <= runs[i].End() && runs[i].value <= max
    ensures Canonical(Pieces(runs, min, max, p, s))
  {
    if p < s {
      assert runs[p].End() <= runs[s - 1].End() <= 0xFFFF;
    }
  }

  lemma PiecesBehind(runs: seq<Rle>, min: nat, max: nat, p: nat, s: nat)
    requires Canonical(runs) && p <= s <= |runs| && min <= max <= 0xFFFF
    requires forall i :: p <= i < s ==> min <= runs[i].End() && runs[i].value <= max
    ensures Apart(runs[..p], Pieces(runs, min, max, p, s))
  {
    var mid := Pieces(runs, min, max, p, s);
    forall i, j | 0 <= i < p && 0 <= j < |mid|
      ensures runs[i].End() + 1 < mid[j].value
    {
      assert runs[i].End() + 1 < runs[p].value <= mid[j].value;
    }
  }

  lemma PiecesBefore(runs: seq<Rle>, min: nat, max: nat, p: nat, s: nat)
    requires Canonical(runs) && p <= s <= |runs| && min <= max <= 0xFFFF
    requires forall i :: p <= i < s ==> min <= runs[i].End() && runs[i].value <= max
    ensures Apart(Pieces(runs, min, max, p, s), runs[s..])
  {
    var mid := Pieces(runs, min, max, p, s);
    forall i, j | 0 <= i < |mid| && s <= j < |runs|
      ensures mid[i].End() + 1 < runs[j].value
    {
      assert mid[i].End() <= runs[s - 1].End() && runs[s - 1].End() + 1 < runs[j].value;
    }
  }

  lemma PiecesHold(runs: seq<Rle>, min: nat, max: nat, p: nat, s: nat, x: int)
    requires Canonical(runs) && p <= s <= |runs| && min <= max <= 0xFFFF
    requires forall i :: p <= i < s ==> min <= runs[i].End() && runs[i].value <= max
    ensures Has(Pieces(runs, min, max, p, s), x) <==> Has(runs[p..s], x) && !(min <= x <= max)
  {
    var mid, part := Pieces(runs, min, max, p, s), runs[p..s];
    if p < s {
      var first, last := runs[p], runs[s - 1];
      assert part[0] == first && part[|part| - 1] == last;
      if i :| 0 <= i < |part| && part[i].Holds(x) {
        assert part[i] == runs[p + i];
        if x < min {
          assert i == 0;
          assert mid[0].Holds(x);
        } else if x > max {
          assert i == |part| - 1;
          assert mid[|mid| - 1].Holds(x);
        }
      }
      if i :| 0 <= i < |mid| && mid[i].Holds(x) {
        if x < min { assert part[0].Holds(x); } else { assert part[|part| - 1].Holds(x); }
      }
    } else {
      assert part == [];
    }
  }

  // ------------------------------------------------------------------ the container

  class RunContainer {
    /** The first `n_runs` entries of the buffer; |runs| is `n_runs`. */
    var runs: seq<Rle>

    constructor ()
      ensures runs == []
    {
      runs := [];
    }

    ghost predicate Valid()
      reads this
    {
      Canonical(runs)
    }

    /** `makeRoomAtIndex`, with the entry that is written there. */
    method InsertAt(index: nat, entry: Rle)
      requires index <= |runs|
      modifies this
      ensures runs == old(runs[..index]) + [entry] + old(runs[index..])
    {
      runs := runs[..index] + [entry] + runs[index..];
    }

    /** `recoverRoomAtIndex`. */
    method EraseAt(index: nat)
      requires index < |runs|
      modifies this
      ensures runs == old(runs[..index]) + old(runs[index + 1..])
    {
      runs := runs[..index] + runs[index + 1..];
    }

    /** `run_container_shift_tail` to the left: the `count` last entries move
        `distance` places down. */
    method ShiftTailLeft(count: nat, distance: nat)
      requires count + distance <= |runs|
      modifies this
      ensures runs == old(runs[..|runs| - count - distance]) + old(runs[|runs| - count..])
    {
      runs := runs[..|runs| - count - distance] + runs[|runs| - count..];
    }

    /** `run_container_contains`. */
    method Contains(pos: nat) returns (found: bool)
      requires Valid() && pos <= 0xFFFF
      ensures found <==> pos in Elements(runs)
    {
      var index := InterleavedBinarySearch(runs, pos);
      if index >= 0 {
        assert runs[index].Holds(pos);
        return true;
      }
      index := -index - 2;
      if index != -1 {
        if pos - runs[index].value <= runs[index].length {
          assert runs[index].Holds(pos);
          return true;
        }
      }
      return false;
    }

    /** `run_container_contains_range` on [start, end): each run that ends inside the range
        is counted one short, and the answer is still exact, if `start` is in the universe.
        The search cuts a greater one to 16 bits, and the answer then says nothing about it. */
    method ContainsRange(start: nat, end: nat) returns (found: bool)
      requires Valid() && start < 0x1_0000_0000 && end < 0x1_0000_0000
      ensures start <= 0xFFFF ==> (found <==> start < end && Interval(start, end - 1) <= Elements(runs))
      ensures start > 0xFFFF ==> (found <==> FoundFar(runs, start, end))
    {
      hide Elements, Interval, Has, Tally;
      var index := InterleavedBinarySearch(runs, start % 0x10000);
      if index < 0 {
        index := -index - 2;
        if start <= 0xFFFF {
          Located(runs, index, start);
        }
        if index == -1 || start - runs[index].value > runs[index].length {
          assert start < end ==> start in Interval(start, end - 1);
          return false;
        }
      }
      if start <= 0xFFFF {
        RangeCovered(runs, index, start, end);
      }
      found := CountCovered(index, start, end);
    }

    /** The counting loop, from the run that holds `start` on. */
    method CountCovered(index: nat, start: nat, end: nat) returns (enough: bool)
      requires Valid() && index < |runs| && start < 0x1_0000_0000 && end < 0x1_0000_0000
      requires if start <= 0xFFFF then runs[index].Holds(start) else runs[index].value == start % 0x10000
      ensures start <= 0xFFFF ==> (enough <==> start < end && runs[index].End() >= end - 1)
      ensures start > 0xFFFF ==> (enough <==> Tally(runs, index, end) >= Sub32(end, start + 1))
    {
      hide Sub32;
      var count: nat := 0;
      var i := index;
      while i < |runs|
        invariant index <= i <= |runs|
        invariant i == index ==> count == 0
        invariant start <= 0xFFFF && i == index + 1 ==> count + start == runs[index].End() < end
        invariant start <= 0xFFFF && i > index + 1 ==> count + start < runs[i - 1].End() < end
        invariant start > 0xFFFF ==> count + Tally(runs, i, end) == Tally(runs, index, end)
      {
        var stop := runs[i].value + runs[i].length;
        if runs[i].value >= end {
          break;
        }
        if stop >= end {
          count := count + (end - runs[i].value);
          break;
        }
        FarSeen(start, stop, runs[i].length);
        var seen := Sub32(stop, start);
        count := count + if seen < runs[i].length then seen else runs[i].length;
        i := i + 1;
      }
      enough := count >= Sub32(end, start + 1);
    }

    /** `run_container_add_range`: union with [min, max]. */
    method AddRange(min: nat, max: nat)
      requires Valid() && min <= max <= 0xFFFF
      modifies this
      ensures Valid() && Elements(runs) == old(Elements(runs)) + Interval(min, max)
    {
      var greater := CountGreater(runs, max);
      var less := CountLess(runs, |runs| - greater, min);
      var from := |runs| - greater;
      ghost var was := runs;
      AddedIsUnion(runs, min, max, less, from);
      if from == less {
        InsertAt(less, Rle(min, max - min));
      } else {
        var commonMin := runs[less].value;
        var commonMax := runs[from - 1].value + runs[from - 1].length;
        var resultMin := if commonMin < min then commonMin else min;
        var resultMax := if commonMax > max then commonMax else max;
        assert resultMin <= resultMax;
        runs := runs[less := Rle(resultMin, resultMax - resultMin)];
        runs := runs[..less + 1] + runs[from..];
      }
      assert runs == Added(was, min, max, less, from);
    }

    /** `run_container_remove_range`: difference with [min, max]. */
    method RemoveRange(min: nat, max: nat)
      requires Valid() && min <= max <= 0xFFFF
      modifies this
      ensures Valid() && Elements(runs) == old(Elements(runs)) - Interval(min, max)
    {
      hide Has, Elements, Interval, Removed, Rle.End16;
      var first := FindRun(runs, min);
      var last := FindRun(runs, max);
      ghost var p := if first >= 0 then first else -first - 1;
      ghost var s := if last >= 0 then last + 1 else -last - 1;
      Ordered(runs, min, max, p, s, first, last);
      RemovedIsDifference(runs, min, max, p, s);
      if first >= 0 && min > runs[first].value && max < runs[first].value + runs[first].length {
        SplitInTwo(first, min, max);
        assert s == p + 1;
      } else {
        CutEnds(first, last, min, max, p, s);
      }
    }

    /** The interval lies strictly inside one run. */
    method SplitInTwo(first: nat, min: nat, max: nat)
      requires first < |runs| && runs[first].value < min <= max < runs[first].End()
      modifies this
      ensures runs == Removed(old(runs), min, max, first, first + 1)
    {
      var whole := runs[first];
      InsertAt(first + 1, Rle(max + 1, (whole.value + whole.length) - (max + 1)));
      runs := runs[first := Rle(whole.value, (min - 1) - whole.value)];
    }

    /** Cuts the left-most run if the interval starts inside it; `first` is the
        first run to drop. */
    method CutLeft(found: int, min: nat, ghost p: nat) returns (first: nat)
      requires p == if found >= 0 then found else -found - 1
      requires found >= 0 ==> found < |runs|
      requires p <= |runs|
      modifies this
      ensures first == p + if found >= 0 then |Left(old(runs[p]), min)| else 0
      ensures first <= |runs|
      ensures runs == old(runs[..p]) + (if found >= 0 then Left(old(runs[p]), min) else []) + old(runs)[first..]
    {
      if found >= 0 {
        first := found;
        if min > runs[found].value {
          runs := runs[found := Rle(runs[found].value, (min - 1) - runs[found].value)];
          first := found + 1;
        }
      } else {
        first := -found - 1;
      }
    }

    /** Cuts the right-most run if the interval ends inside it; `last` is the last
        run to drop. */
    method CutRight(found: int, max: nat, ghost s: nat) returns (last: int)
      requires s == if found >= 0 then found + 1 else -found - 1
      requires s <= |runs| && (found >= 0 ==> runs[found].End() <= 0xFFFF)
      modifies this
      ensures last == s - 1 - if found >= 0 then |Right(old(runs[s - 1]), max)| else 0
      ensures -1 <= last < |runs|
      ensures runs == old(runs)[..last + 1] + (if found >= 0 then Right(old(runs[s - 1]), max) else []) + old(runs)[s..]
    {
      hide Rle.End16;
      if found >= 0 {
        last := found;
        var runMax := runs[found].End16();
        if runMax > max {
          runs := runs[found := Rle(max + 1, runMax - (max + 1))];
          last := found - 1;
        }
      } else {
        last := (-found - 1) - 1;
      }
    }

    /** The other cases: the ends of the outermost runs are cut off and the runs
        between them are dropped. */
    method CutEnds(foundFirst: int, foundLast: int, min: nat, max: nat, ghost p: nat, ghost s: nat)
      requires Valid() && min <= max <= 0xFFFF && p <= s <= |runs|
      requires p == if foundFirst >= 0 then foundFirst else -foundFirst - 1
      requires s == if foundLast >= 0 then foundLast + 1 else -foundLast - 1
      requires foundFirst >= 0 ==> p < s && runs[foundFirst].Holds(min)
      requires foundLast >= 0 ==> p < s
      requires p < s ==> !(runs[p].value < min && max < runs[p].End())
      requires foundFirst < 0 && p < s ==> min < runs[p].value
      requires foundLast < 0 && p < s ==> runs[s - 1].End() < max
      modifies this
      ensures runs == Removed(old(runs), min, max, p, s)
    {
      hide Left, Right, Canonical, Pieces, Removed, Rle.End, Rle.End16, Rle.Holds;
      ghost var was := runs;
      ghost var left := if foundFirst >= 0 then Left(runs[p], min) else [];
      ghost var right := if foundLast >= 0 then Right(runs[s - 1], max) else [];
      PiecesFound(was, min, max, p, s, foundFirst, foundLast, left, right);
      var first := CutLeft(foundFirst, min, p);
      ghost var cut := runs;
      if foundLast >= 0 {
        RightIsLeftAlone(was, cut, left, p, s, min, max);
      }
      var last := CutRight(foundLast, max, s);
      ghost var trimmed := runs;
      DropBetween(was, cut, trimmed, left, right, p, s, first, last);
      DropRuns(first, last);
    }

    /** Drops the runs from `first` to `last`, if any. */
    method DropRuns(first: nat, last: int)
      requires first <= last + 1 <= |runs|
      modifies this
      ensures runs == old(runs)[..first] + old(runs)[last + 1..]
    {
      ghost var was := runs;
      if first <= last {
        ShiftTailLeft(|runs| - (last + 1), last - first + 1);
        assert runs == was[..first] + was[last + 1..];
      } else {
        assert was == was[..first] + was[first..];
      }
    }

    /** `run_container_remove`: difference with one value; the answer is whether
        it was there. */
    method Remove(pos: nat) returns (was: bool)
      requires Valid() && pos <= 0xFFFF
      modifies this
      ensures was <==> pos in old(Elements(runs))
      ensures Valid() && Elements(runs) == old(Elements(runs)) - Interval(pos, pos)
    {
      hide Elements, Interval, Has;
      var index := InterleavedBinarySearch(runs, pos);
      if index >= 0 {
        OneValue(runs, index, pos);
        RemoveFirstOf(index, pos);
        return true;
      }
      index := -index - 2;
      Located(runs, index, pos);
      if index >= 0 {
        var offset := pos - runs[index].value;
        var le := runs[index].length;
        if offset <= le {
          OneValue(runs, index, pos);
          RemoveInside(index, pos, offset, le);
          return true;
        }
      }
      NotThere(runs, pos);
      return false;
    }

    /** The value is the first of its run. */
    method RemoveFirstOf(index: nat, pos: nat)
      requires index < |runs| && runs[index].value == pos
      modifies this
      ensures runs == Removed(old(runs), pos, pos, index, index + 1)
    {
      if runs[index].length == 0 {
        EraseAt(index);
      } else {
        runs := runs[index := Rle(runs[index].value + 1, runs[index].length - 1)];
      }
    }

    /** The value is inside its run, or the last of it. */
    method RemoveInside(index: nat, pos: nat, offset: nat, le: nat)
      requires index < |runs| && runs[index].length == le && pos == runs[index].value + offset && 0 < offset <= le
      modifies this
      ensures runs == Removed(old(runs), pos, pos, index, index + 1)
    {
      if offset < le {
        runs := runs[index := Rle(runs[index].value, offset - 1)];
        InsertAt(index + 1, Rle(pos + 1, le - offset - 1));
      } else {
        runs := runs[index := Rle(runs[index].value, le - 1)];
      }
    }
  }

  /** Removing a value that run `k` holds. */
  lemma OneValue(runs: seq<Rle>, k: nat, pos: nat)
    requires Canonical(runs) && k < |runs| && runs[k].Holds(pos)
    ensures pos in Elements(runs)
    ensures Canonical(Removed(runs, pos, pos, k, k + 1))
    ensures Elements(Removed(runs, pos, pos, k, k + 1)) == Elements(runs) - Interval(pos, pos)
  {
    RemovedIsDifference(runs, pos, pos, k, k + 1);
  }

  /** Only the last run that starts before `pos` can hold it. */
  lemma Located(runs: seq<Rle>, k: int, pos: nat)
    requires Canonical(runs) && -1 <= k < |runs| && pos <= 0xFFFF
    requires forall i :: 0 <= i <= k ==> runs[i].value < pos
    requires forall i :: k < i < |runs| ==> runs[i].value > pos
    ensures pos in Elements(runs) <==> k >= 0 && runs[k].Holds(pos)
  {}

  lemma NotThere(runs: seq<Rle>, pos: nat)
    requires pos !in Elements(runs)
    ensures Elements(runs) == Elements(runs) - Interval(pos, pos)
  {}

  /** What is before the dropped runs and what is after them. */
  lemma DropBetween(was: seq<Rle>, cut: seq<Rle>, trimmed: seq<Rle>, left: seq<Rle>, right: seq<Rle>,
                    p: nat, s: nat, first: nat, last: int)
    requires p <= s <= |was| && first == p + |left| && last == s - 1 - |right| && p <= first <= last + 1
    requires cut == was[..p] + left + was[first..]
    requires trimmed == cut[..last + 1] + right + cut[s..]
    ensures |trimmed| == |was|
    ensures trimmed[..first] == was[..p] + left && trimmed[last + 1..] == right + was[s..]
    ensures trimmed[..first] + trimmed[last + 1..] == was[..p] + (left + right) + was[s..]
    ensures first == last + 1 ==> trimmed == was[..p] + (left + right) + was[s..]
  {
    assert cut[..first] == was[..p] + left && cut[s..] == was[s..];
    assert trimmed[..first] == cut[..first];
    assert trimmed[last + 1..] == right + cut[s..];
    if first == last + 1 {
      assert trimmed == trimmed[..first] + trimmed[first..];
    }
  }

  /** Which pieces are left, by what was found for the two ends. */
  lemma PiecesFound(was: seq<Rle>, min: nat, max: nat, p: nat, s: nat,
                    foundFirst: int, foundLast: int, left: seq<Rle>, right: seq<Rle>)
    requires p <= s <= |was| && (foundFirst >= 0 ==> p < s) && (foundLast >= 0 ==> p < s)
    requires foundFirst < 0 && p < s ==> min < was[p].value
    requires foundLast < 0 && p < s ==> was[s - 1].End() < max
    requires left == if foundFirst >= 0 then Left(was[p], min) else []
    requires right == if foundLast >= 0 then Right(was[s - 1], max) else []
    ensures Removed(was, min, max, p, s) == was[..p] + (left + right) + was[s..]
    ensures |left| <= 1 && (left != [] ==> was[p].value < min)
  {}

  /** Cutting the left-most run does not change what will be cut on the right. */
  lemma RightIsLeftAlone(was: seq<Rle>, cut: seq<Rle>, left: seq<Rle>, p: nat, s: nat, min: nat, max: nat)
    requires Canonical(was) && p < s <= |was| && min <= max <= 0xFFFF
    requires left == [] || left == Left(was[p], min)
    requires cut == was[..p] + left + was[p + |left|..]
    requires !(was[p].value < min && max < was[p].End())
    requires left != [] ==> was[p].value < min
    ensures |cut| == |was| && cut[s - 1].End() <= 0xFFFF
    ensures Right(cut[s - 1], max) == Right(was[s - 1], max)
    ensures p + |left| <= s - |Right(was[s - 1], max)|
  {
    if left != [] && s == p + 1 {
      assert cut[p] == left[0];
    } else {
      assert cut[s - 1] == was[s - 1];
    }
  }

  /** A range that starts in run `k` is present exactly when run `k` reaches its end. */
  lemma RangeCovered(runs: seq<Rle>, k: nat, start: nat, end: nat)
    requires Canonical(runs) && k < |runs| && runs[k].Holds(start)
    ensures start < end ==> (Interval(start, end - 1) <= Elements(runs) <==> runs[k].End() >= end - 1)
  {
    if start < end {
      if runs[k].End() >= end - 1 {
        forall x | start <= x < end ensures x in Elements(runs) {
          assert runs[k].Holds(x);
        }
      } else {
        var gap := runs[k].End() + 1;
        assert gap in Interval(start, end - 1);
        assert !Has(runs, gap);
      }
    }
  }

  /** The places found for the two ends of an interval are in order and frame
      exactly the runs that meet it. */
  lemma Ordered(runs: seq<Rle>, min: nat, max: nat, p: nat, s: nat, first: int, last: int)
    requires Canonical(runs) && min <= max
    requires if first >= 0 then p == first < |runs| && runs[first].Holds(min) else p == -first - 1 <= |runs|
    requires if last >= 0 then s == last + 1 <= |runs| && runs[last].Holds(max) else s == -last - 1 <= |runs|
    requires first < 0 ==> forall i :: 0 <= i < p ==> runs[i].End() < min
    requires first < 0 ==> forall i :: p <= i < |runs| ==> min < runs[i].value
    requires last < 0 ==> forall i :: 0 <= i < s ==> runs[i].End() < max
    requires last < 0 ==> forall i :: s <= i < |runs| ==> max < runs[i].value
    ensures p <= s
    ensures forall i :: 0 <= i < p ==> runs[i].End() < min
    ensures forall i :: p <= i < s ==> min <= runs[i].End() && runs[i].value <= max
    ensures forall i :: s <= i < |runs| ==> max < runs[i].value
  {
    assert p == 0 || runs[p - 1].End() < min;
    assert s == |runs| || max < runs[s].value;
  }
}
