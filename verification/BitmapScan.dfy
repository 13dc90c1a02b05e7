/** Enumerating the set bits of an uncompressed bitmap: `listPosAsc`,
    `foreach`, `rforeach`, the two iterators and `getCount`. */
module BitmapScan {
  import opened Bits
  import opened BitmapCodec
  import opened BitmapLanes
  import opened Bitmaps

  /** Bit `p` of the bitmap (`Bitmap::get`). */
  predicate BitSet(ws: seq<Word>, p: nat)
    requires p < VALUE_SIZE * |ws|
  {
    BitAt(ws[p / VALUE_SIZE], p % VALUE_SIZE)
  }

  function One(ws: seq<Word>, p: nat): (s: seq<nat>)
    requires p < VALUE_SIZE * |ws|
  {
    if BitSet(ws, p) then [p] else []
  }

  /** The set positions of [lo, hi), smallest first. */
  function Ascending(ws: seq<Word>, lo: nat, hi: nat): (s: seq<nat>)
    requires hi <= VALUE_SIZE * |ws|
  {
    if lo >= hi then [] else Ascending(ws, lo, hi - 1) + One(ws, hi - 1)
  }

  /** The set positions of [lo, hi), largest first. */
  function Descending(ws: seq<Word>, lo: nat, hi: nat): (s: seq<nat>)
    requires hi <= VALUE_SIZE * |ws|
    decreases hi - lo
  {
    if lo >= hi then [] else Descending(ws, lo + 1, hi) + One(ws, lo)
  }

  lemma NoneYet(ws: seq<Word>, p: nat)
    requires p <= VALUE_SIZE * |ws|
    ensures Ascending(ws, p, p) == Descending(ws, p, p) == []
  {}

  /** Position `p` is bit p % 14, from the least significant one, of word p / 14. */
  lemma BitSetIs(ws: seq<Word>, p: nat)
    requires p < VALUE_SIZE * |ws|
    ensures BitSet(ws, p) <==> ws[p / 14] / Pow2(p % 14) % 2 == 1
  {
    BitAtIs(ws[p / VALUE_SIZE], p % VALUE_SIZE);
  }

  lemma BitSetAt(ws: seq<Word>, i: nat, n: nat)
    requires i < |ws| && n < VALUE_SIZE
    ensures BitSet(ws, VALUE_SIZE * i + n) <==> BitAt(ws[i], n)
  {
    assert (VALUE_SIZE * i + n) / VALUE_SIZE == i && (VALUE_SIZE * i + n) % VALUE_SIZE == n;
  }

  // ------------------------------------- what the two listings are, in themselves

  /** `Ascending` lists exactly the set positions, in strictly increasing order. */
  lemma {:induction false} AscendingIsExact(ws: seq<Word>, lo: nat, hi: nat)
    requires hi <= VALUE_SIZE * |ws|
    ensures forall p: nat :: p in Ascending(ws, lo, hi) <==> lo <= p < hi && BitSet(ws, p)
    ensures forall i, j :: 0 <= i < j < |Ascending(ws, lo, hi)| ==> Ascending(ws, lo, hi)[i] < Ascending(ws, lo, hi)[j]
  {
    hide BitSet;
    if lo >= hi {
    } else {
      AscendingIsExact(ws, lo, hi - 1);
      var s := Ascending(ws, lo, hi - 1);
      forall p: nat
        ensures p in Ascending(ws, lo, hi) <==> lo <= p < hi && BitSet(ws, p)
      {
        assert p in Ascending(ws, lo, hi) <==> p in s || p in One(ws, hi - 1);
      }
      forall i | 0 <= i < |s| ensures s[i] < hi - 1 {
        assert s[i] in s;
      }
    }
  }

  function Reversed(s: seq<nat>): (r: seq<nat>)
    ensures |r| == |s|
    ensures forall i :: 0 <= i < |s| ==> r[i] == s[|s| - 1 - i]
  {
    if s == [] then [] else Reversed(s[1..]) + [s[0]]
  }

  lemma AscendingFront(ws: seq<Word>, lo: nat, hi: nat)
    requires lo < hi <= VALUE_SIZE * |ws|
    ensures Ascending(ws, lo, hi) == One(ws, lo) + Ascending(ws, lo + 1, hi)
  {
    hide One;
    AscendingSplit(ws, lo, lo + 1, hi);
    assert Ascending(ws, lo, lo + 1) == Ascending(ws, lo, lo) + One(ws, lo);
  }

  lemma {:induction false} AscendingSplit(ws: seq<Word>, lo: nat, mid: nat, hi: nat)
    requires lo <= mid <= hi <= VALUE_SIZE * |ws|
    ensures Ascending(ws, lo, hi) == Ascending(ws, lo, mid) + Ascending(ws, mid, hi)
  {
    hide One;
    if mid == hi {
    } else {
      AscendingSplit(ws, lo, mid, hi - 1);
    }
  }

  /** Enumerating backwards gives the same positions in the opposite order. */
  lemma {:induction false} DescendingIsReversed(ws: seq<Word>, lo: nat, hi: nat)
    requires hi <= VALUE_SIZE * |ws|
    ensures Descending(ws, lo, hi) == Reversed(Ascending(ws, lo, hi))
    decreases hi - lo
  {
    hide BitSet, One, Ascending;
    if lo >= hi {
      NoneBetween(ws, lo, hi);
    } else {
      DescendingIsReversed(ws, lo + 1, hi);
      AtMostOne(ws, lo);
      AscendingFront(ws, lo, hi);
      ReversedFront(One(ws, lo), Ascending(ws, lo + 1, hi));
    }
  }

  lemma NoneBetween(ws: seq<Word>, lo: nat, hi: nat)
    requires hi <= VALUE_SIZE * |ws| && lo >= hi
    ensures Ascending(ws, lo, hi) == []
  {}

  lemma AtMostOne(ws: seq<Word>, p: nat)
    requires p < VALUE_SIZE * |ws|
    ensures |One(ws, p)| <= 1
  {}

  lemma ReversedFront(one: seq<nat>, s: seq<nat>)
    requires |one| <= 1
    ensures Reversed(one + s) == Reversed(s) + one
  {}

  // ----------------------------------------------------------- skipping zero words

  lemma ZeroWordHasNoBits(ws: seq<Word>, i: nat)
    requires i < |ws| && ws[i] == 0
    ensures forall p: nat :: VALUE_SIZE * i <= p < VALUE_SIZE * i + VALUE_SIZE ==> !BitSet(ws, p)
  {
    forall p: nat | VALUE_SIZE * i <= p < VALUE_SIZE * i + VALUE_SIZE ensures !BitSet(ws, p) {
      assert p / VALUE_SIZE == i;
      ZeroHasNoBits(p % VALUE_SIZE);
    }
  }

  /** A block that loads as 0 has no bit set. */
  lemma ZeroBlockHasNoBits(ws: seq<Word>, i: nat)
    requires U64_DIV_BASE * i + 3 < |ws|
    requires Pack(ws[4 * i], ws[4 * i + 1], ws[4 * i + 2], ws[4 * i + 3]) == 0
    ensures forall p: nat :: U64_VALUE_SIZE * i <= p < U64_VALUE_SIZE * (i + 1) ==> !BitSet(ws, p)
  {
    hide Pack;
    PackIsZero(ws[4 * i], ws[4 * i + 1], ws[4 * i + 2], ws[4 * i + 3]);
    forall p: nat | U64_VALUE_SIZE * i <= p < U64_VALUE_SIZE * (i + 1) ensures !BitSet(ws, p) {
      assert 4 * i <= p / VALUE_SIZE <= 4 * i + 3;
      assert ws[p / VALUE_SIZE] == 0;
      ZeroHasNoBits(p % VALUE_SIZE);
    }
  }

  lemma {:induction false} AscendingSkip(ws: seq<Word>, lo: nat, mid: nat, hi: nat)
    requires lo <= mid <= hi <= VALUE_SIZE * |ws|
    requires forall p: nat :: mid <= p < hi ==> !BitSet(ws, p)
    ensures Ascending(ws, lo, hi) == Ascending(ws, lo, mid)
  {
    hide BitSet;
    if mid == hi {
    } else {
      AscendingSkip(ws, lo, mid, hi - 1);
    }
  }

  lemma {:induction false} DescendingSkip(ws: seq<Word>, lo: nat, mid: nat, hi: nat)
    requires lo <= mid <= hi <= VALUE_SIZE * |ws|
    requires forall p: nat :: lo <= p < mid ==> !BitSet(ws, p)
    ensures Descending(ws, lo, hi) == Descending(ws, mid, hi)
    decreases mid - lo
  {
    hide BitSet;
    if lo == mid {
    } else {
      DescendingSkip(ws, lo + 1, mid, hi);
    }
  }

  // -------------------------------------------------------------- callback prefixes

  /** The part of `s` that a callback sees when it stops at the first element it
      answers with false. */
  function Until(cb: nat -> bool, s: seq<nat>): (r: seq<nat>) {
    if s == [] then [] else if !cb(s[0]) then [s[0]] else [s[0]] + Until(cb, s[1..])
  }

  lemma {:induction false} UntilEnd(cb: nat -> bool, s: seq<nat>)
    requires forall p :: p in s ==> cb(p)
    ensures Until(cb, s) == s
  {
    if s == [] {
    } else {
      UntilEnd(cb, s[1..]);
    }
  }

  lemma {:induction false} UntilStop(cb: nat -> bool, s: seq<nat>, p: nat, rest: seq<nat>)
    requires forall q :: q in s ==> cb(q)
    requires !cb(p)
    ensures Until(cb, s + [p] + rest) == s + [p]
  {
    if s == [] {
      assert s + [p] + rest == [p] + rest;
    } else {
      UntilStop(cb, s[1..], p, rest);
      assert (s + [p] + rest)[1..] == s[1..] + [p] + rest;
    }
  }

  lemma UntilStopAscending(cb: nat -> bool, ws: seq<Word>, p: nat, hi: nat)
    requires p < hi <= VALUE_SIZE * |ws| && BitSet(ws, p)
    requires forall q :: q in Ascending(ws, 0, p) ==> cb(q)
    requires !cb(p)
    ensures Until(cb, Ascending(ws, 0, hi)) == Ascending(ws, 0, p) + [p]
  {
    AscendingSplit(ws, 0, p + 1, hi);
    UntilStop(cb, Ascending(ws, 0, p), p, Ascending(ws, p + 1, hi));
  }

  lemma {:induction false} DescendingSplit(ws: seq<Word>, lo: nat, mid: nat, hi: nat)
    requires lo <= mid <= hi <= VALUE_SIZE * |ws|
    ensures Descending(ws, lo, hi) == Descending(ws, mid, hi) + Descending(ws, lo, mid)
    decreases mid - lo
  {
    hide One;
    if lo == mid {
    } else {
      DescendingSplit(ws, lo + 1, mid, hi);
    }
  }

  lemma UntilStopDescending(cb: nat -> bool, ws: seq<Word>, p: nat, hi: nat)
    requires p < hi <= VALUE_SIZE * |ws| && BitSet(ws, p)
    requires forall q :: q in Descending(ws, p + 1, hi) ==> cb(q)
    requires !cb(p)
    ensures Until(cb, Descending(ws, 0, hi)) == Descending(ws, p + 1, hi) + [p]
  {
    DescendingSplit(ws, 0, p, hi);
    UntilStop(cb, Descending(ws, p + 1, hi), p, Descending(ws, 0, p));
  }

  // ------------------------------------------------------------------- enumeration

  lemma AscendingStep(ws: seq<Word>, lo: nat, i: nat, n: nat)
    requires i < |ws| && n < VALUE_SIZE && lo <= VALUE_SIZE * i + n
    ensures var pos := VALUE_SIZE * i + n;
      Ascending(ws, lo, pos + 1) == Ascending(ws, lo, pos) + if BitAt(ws[i], n) then [pos] else []
  {
    hide BitAt;
    var pos := VALUE_SIZE * i + n;
    assert pos / VALUE_SIZE == i && pos % VALUE_SIZE == n;
  }

  /** The bits of one word, for positions below `size`; it stops early when the
      callback answers false. */
  method ScanWord(data: array<Word>, size: nat, i: nat, cb: nat -> bool, seen: seq<nat>)
    returns (visited: seq<nat>, stopped: bool)
    requires i < data.Length && VALUE_SIZE * i <= size <= VALUE_SIZE * data.Length
    requires seen == Ascending(data[..], 0, VALUE_SIZE * i)
    requires forall q :: q in seen ==> cb(q)
    ensures stopped ==> visited == Until(cb, Ascending(data[..], 0, size))
    ensures !stopped ==> visited == Ascending(data[..], 0, Min(VALUE_SIZE * i + VALUE_SIZE, size))
    ensures !stopped ==> forall q :: q in visited ==> cb(q)
  {
    hide BitAt, Until, Ascending;
    ghost var ws := data[..];
    var w := data[i];
    visited := seen;
    var n, pos: nat := 0, VALUE_SIZE * i;
    while n < VALUE_SIZE && pos < size
      invariant 0 <= n <= VALUE_SIZE && pos == VALUE_SIZE * i + n <= size
      invariant visited == Ascending(ws, 0, pos)
      invariant forall q :: q in visited ==> cb(q)
    {
      AscendingStep(ws, 0, i, n);
      if BitAt(w, n) {
        visited := visited + [pos];
        if !cb(pos) {
          UntilStopAscending(cb, ws, pos, size);
          return visited, true;
        }
      }
      n, pos := n + 1, pos + 1;
    }
    stopped := false;
  }

  function Min(a: nat, b: nat): (m: nat) { if a < b then a else b }

  /** The first loop of `foreach`: blocks of four words, zero ones skipped. */
  method ForeachBlocks(data: array<Word>, size: nat, cb: nat -> bool) returns (visited: seq<nat>, stopped: bool)
    requires data.Length == WordCount(size)
    ensures stopped ==> visited == Until(cb, Ascending(data[..], 0, size))
    ensures !stopped ==> visited == Ascending(data[..], 0, U64_VALUE_SIZE * (size / U64_VALUE_SIZE))
    ensures !stopped ==> forall q :: q in visited ==> cb(q)
  {
    hide Until, Pack, BitSet, Ascending;
    ghost var ws := data[..];
    NoneYet(ws, 0);
    visited := [];
    for i := 0 to size / U64_VALUE_SIZE
      invariant visited == Ascending(ws, 0, U64_VALUE_SIZE * i)
      invariant forall q :: q in visited ==> cb(q)
    {
      if Load(data, i) == 0 {
        ZeroBlockHasNoBits(ws, i);
        AscendingSkip(ws, 0, U64_VALUE_SIZE * i, U64_VALUE_SIZE * (i + 1));
      } else {
        for n := 0 to U64_DIV_BASE
          invariant visited == Ascending(ws, 0, U64_VALUE_SIZE * i + VALUE_SIZE * n)
          invariant forall q :: q in visited ==> cb(q)
        {
          visited, stopped := ScanWord(data, size, U64_DIV_BASE * i + n, cb, visited);
          if stopped {
            return;
          }
        }
      }
    }
    stopped := false;
  }

  /** `foreach`: four-word blocks and single words that are zero are skipped.
      `visited` is what the callback saw, in order. */
  method Foreach(b: Bitmap, cb: nat -> bool) returns (visited: seq<nat>)
    requires b.Valid() && !b.compressed
    ensures visited == Until(cb, Ascending(b.data[..], 0, b.size))
  {
    hide Until, BitSet, Ascending, Expand, Decodable;
    ghost var ws := b.data[..];
    var stopped;
    visited, stopped := ForeachBlocks(b.data, b.size, cb);
    if stopped {
      return;
    }
    for i := U64_DIV_BASE * (b.size / U64_VALUE_SIZE) to b.data.Length
      invariant visited == Ascending(ws, 0, Min(VALUE_SIZE * i, b.size))
      invariant forall q :: q in visited ==> cb(q)
    {
      if b.data[i] == 0 {
        ZeroWordHasNoBits(ws, i);
        AscendingSkip(ws, 0, Min(VALUE_SIZE * i, b.size), Min(VALUE_SIZE * (i + 1), b.size));
      } else {
        visited, stopped := ScanWord(b.data, b.size, i, cb, visited);
        if stopped {
          return;
        }
      }
    }
    UntilEnd(cb, visited);
  }

  /** `listPosAsc`: the same walk, appending to `pos`. */
  method ListPosAsc(b: Bitmap, pos: seq<nat>) returns (r: seq<nat>)
    requires b.Valid() && !b.compressed
    ensures r == pos + Ascending(b.data[..], 0, b.size)
  {
    var always := (p: nat) => true;
    var visited := Foreach(b, always);
    UntilEnd(always, Ascending(b.data[..], 0, b.size));
    r := pos + visited;
  }

  lemma DescendingStep(ws: seq<Word>, i: nat, n: nat, hi: nat)
    requires i < |ws| && n < VALUE_SIZE && VALUE_SIZE * i + n < hi <= VALUE_SIZE * |ws|
    ensures var pos := VALUE_SIZE * i + n;
      Descending(ws, pos, hi) == Descending(ws, pos + 1, hi) + if BitAt(ws[i], n) then [pos] else []
  {
    hide BitAt;
    var pos := VALUE_SIZE * i + n;
    assert pos / VALUE_SIZE == i && pos % VALUE_SIZE == n;
  }

  /** The bits of one word from bit `top` down. */
  method ScanWordDown(data: array<Word>, ghost size: nat, i: nat, top: nat, cb: nat -> bool, seen: seq<nat>)
    returns (visited: seq<nat>, stopped: bool)
    requires i < data.Length && size <= VALUE_SIZE * data.Length
    requires top < VALUE_SIZE && VALUE_SIZE * i + top < size
    requires seen == Descending(data[..], VALUE_SIZE * i + top + 1, size)
    requires forall q :: q in seen ==> cb(q)
    ensures stopped ==> visited == Until(cb, Descending(data[..], 0, size))
    ensures !stopped ==> visited == Descending(data[..], VALUE_SIZE * i, size)
    ensures !stopped ==> forall q :: q in visited ==> cb(q)
  {
    hide BitAt, Until, Descending;
    ghost var ws := data[..];
    var w := data[i];
    visited := seen;
    var n: int, pos: int := top, VALUE_SIZE * i + top;
    while n >= 0
      invariant -1 <= n <= top && pos == VALUE_SIZE * i + n
      invariant visited == Descending(ws, pos + 1, size)
      invariant forall q :: q in visited ==> cb(q)
    {
      DescendingStep(ws, i, n, size);
      if BitAt(w, n) {
        visited := visited + [pos];
        if !cb(pos) {
          UntilStopDescending(cb, ws, pos, size);
          return visited, true;
        }
      }
      n, pos := n - 1, pos - 1;
    }
    stopped := false;
  }

  /** The end of the positions that `rforeach` looks at: the topmost word of a
      bitmap whose size is not a multiple of 14 is read from bit `size % 14`,
      one past the last bit. */
  function ScanTop(size: nat): (top: nat) {
    if size % VALUE_SIZE == 0 then size else size + 1
  }

  /** The first half of `rforeach`: the words from the top down to word `low`.
      `last` is the bit from which the topmost word is read. */
  method RforeachTail(data: array<Word>, low: nat, last: nat, ghost hi: nat, cb: nat -> bool)
    returns (visited: seq<nat>, stopped: bool)
    requires low < data.Length && last < VALUE_SIZE && hi == VALUE_SIZE * (data.Length - 1) + last + 1
    ensures stopped ==> visited == Until(cb, Descending(data[..], 0, hi))
    ensures !stopped ==> visited == Descending(data[..], VALUE_SIZE * low, hi)
    ensures !stopped ==> forall q :: q in visited ==> cb(q)
  {
    hide Until, BitSet, Descending;
    ghost var ws := data[..];
    NoneYet(ws, hi);
    visited, stopped := [], false;
    var i: int, top := data.Length - 1, last;
    while i >= low
      invariant low - 1 <= i < data.Length && 0 <= top < VALUE_SIZE && (i < 0 ==> top == VALUE_SIZE - 1)
      invariant VALUE_SIZE * i + top + 1 <= hi
      invariant i < data.Length - 1 ==> top == VALUE_SIZE - 1
      invariant !stopped && visited == Descending(ws, VALUE_SIZE * i + top + 1, hi)
      invariant forall q :: q in visited ==> cb(q)
    {
      if data[i] == 0 {
        ZeroWordHasNoBits(ws, i);
        DescendingSkip(ws, VALUE_SIZE * i, VALUE_SIZE * i + top + 1, hi);
      } else {
        visited, stopped := ScanWordDown(data, hi, i, top, cb, visited);
        if stopped {
          return;
        }
      }
      i, top := i - 1, VALUE_SIZE - 1;
    }
  }

  /** Where the two halves of `rforeach` meet, and where the first one starts. */
  lemma TopWord(size: nat)
    ensures U64_VALUE_SIZE * (size / U64_VALUE_SIZE) <= ScanTop(size) <= VALUE_SIZE * WordCount(size)
    ensures size % U64_VALUE_SIZE == 0 ==> ScanTop(size) == U64_VALUE_SIZE * (size / U64_VALUE_SIZE)
    ensures var last := if size % VALUE_SIZE == 0 then VALUE_SIZE - 1 else size % VALUE_SIZE;
      size % U64_VALUE_SIZE != 0 ==>
        && U64_DIV_BASE * (size / U64_VALUE_SIZE) < WordCount(size)
        && ScanTop(size) == VALUE_SIZE * (WordCount(size) - 1) + last + 1
  {
    var q, r := size / U64_VALUE_SIZE, size % U64_VALUE_SIZE;
    var full, last := r / VALUE_SIZE, r % VALUE_SIZE;
    assert size == VALUE_SIZE * (U64_DIV_BASE * q + full) + last;
    WordsOf(size, U64_DIV_BASE * q + full, last);
  }

  lemma WordsOf(size: nat, full: nat, last: nat)
    requires last < VALUE_SIZE && size == VALUE_SIZE * full + last
    ensures size % VALUE_SIZE == last && WordCount(size) == full + if last == 0 then 0 else 1
  {}

  /** `rforeach`. */
  method Rforeach(b: Bitmap, cb: nat -> bool) returns (visited: seq<nat>)
    requires b.Valid() && !b.compressed
    ensures visited == Until(cb, Descending(b.data[..], 0, ScanTop(b.size)))
  {
    hide Until, BitSet, Descending, Expand, Decodable, WordCount, ScanTop;
    ghost var hi := ScanTop(b.size);
    TopWord(b.size);
    NoneYet(b.data[..], hi);
    visited := [];
    if b.size % U64_VALUE_SIZE != 0 {
      var stopped;
      var last := if b.size % VALUE_SIZE == 0 then VALUE_SIZE - 1 else b.size % VALUE_SIZE;
      visited, stopped := RforeachTail(b.data, U64_DIV_BASE * (b.size / U64_VALUE_SIZE), last, hi, cb);
      if stopped {
        return;
      }
    }
    visited := RforeachLanes(b.data, b.size / U64_VALUE_SIZE, hi, cb, visited);
  }

  /** The second half of `rforeach`: the four-word blocks. */
  method RforeachLanes(data: array<Word>, lanes: nat, ghost hi: nat, cb: nat -> bool, seen: seq<nat>)
    returns (visited: seq<nat>)
    requires U64_VALUE_SIZE * lanes <= hi <= VALUE_SIZE * data.Length
    requires seen == Descending(data[..], U64_VALUE_SIZE * lanes, hi)
    requires forall q :: q in seen ==> cb(q)
    ensures visited == Until(cb, Descending(data[..], 0, hi))
  {
    hide Until, Pack, BitSet, Descending;
    ghost var ws := data[..];
    visited := seen;
    var i: int := lanes - 1;
    while i >= 0
      invariant -1 <= i < lanes
      invariant visited == Descending(ws, U64_VALUE_SIZE * (i + 1), hi)
      invariant forall q :: q in visited ==> cb(q)
    {
      if Load(data, i) == 0 {
        ZeroBlockHasNoBits(ws, i);
        DescendingSkip(ws, U64_VALUE_SIZE * i, U64_VALUE_SIZE * (i + 1), hi);
      } else {
        for n := 0 to U64_DIV_BASE
          invariant visited == Descending(ws, U64_VALUE_SIZE * (i + 1) - VALUE_SIZE * n, hi)
          invariant forall q :: q in visited ==> cb(q)
        {
          var stopped;
          visited, stopped := ScanWordDown(data, hi, U64_DIV_BASE * (i + 1) - 1 - n, VALUE_SIZE - 1, cb, visited);
          if stopped {
            return;
          }
        }
      }
      i := i - 1;
    }
    UntilEnd(cb, visited);
  }

  /** The backward enumeration is the reverse of the forward one exactly when
      the padding bit that `rforeach` also reads is clear. */
  lemma RforeachIsReverseIff(ws: seq<Word>, size: nat)
    requires |ws| == WordCount(size)
    ensures Descending(ws, 0, ScanTop(size)) == Reversed(Ascending(ws, 0, size))
      <==> (size % VALUE_SIZE != 0 ==> !BitSet(ws, size))
  {
    hide BitSet;
    DescendingIsReversed(ws, 0, size);
    if size % VALUE_SIZE != 0 {
      DescendingTop(ws, size);
    }
  }

  /** For a bitmap of 13 bits filled with the byte 0xFF, `rforeach` starts at a padding bit. */
  lemma RforeachStartsInPadding(ws: seq<Word>)
    requires ws == [0xFFFF]
    ensures |ws| == WordCount(13)
    ensures Descending(ws, 0, ScanTop(13)) != Reversed(Ascending(ws, 0, 13))
  {
    hide Descending, Ascending, Reversed;
    FullWordBit(16, 13);
    assert BitSet(ws, 13);
    RforeachIsReverseIff(ws, 13);
  }

  lemma {:induction false} FullWordBit(k: nat, i: nat)
    requires i < k
    ensures BitAt(Pow2(k) - 1, i)
    ensures k == 16 ==> Pow2(k) == 0x10000
  {
    Powers();
    if i == 0 {
    } else {
      FullWordBit(k - 1, i - 1);
      assert (Pow2(k) - 1) / 2 == Pow2(k - 1) - 1;
    }
  }

  lemma DescendingTop(ws: seq<Word>, size: nat)
    requires size < VALUE_SIZE * |ws|
    ensures Descending(ws, 0, size + 1) == One(ws, size) + Descending(ws, 0, size)
  {
    hide One;
    DescendingSplit(ws, 0, size, size + 1);
    assert Descending(ws, size, size + 1) == Descending(ws, size + 1, size + 1) + One(ws, size);
  }

  // ---------------------------------------------------------------------- counting

  function CountLow(w: nat, k: nat): (n: nat) {
    if k == 0 then 0 else CountLow(w, k - 1) + (if BitAt(w, k - 1) then 1 else 0)
  }

  lemma {:induction false} CountLowHalf(w: nat, k: nat)
    requires k > 0
    ensures CountLow(w, k) == w % 2 + CountLow(w / 2, k - 1)
  {
    if k <= 1 {
    } else {
      CountLowHalf(w, k - 1);
    }
  }

  lemma {:induction false} PopcountIsCount(w: nat, k: nat)
    requires w < Pow2(k)
    ensures Popcount(w) == CountLow(w, k)
  {
    if k == 0 {
    } else {
      CountLowHalf(w, k);
      PopcountIsCount(w / 2, k - 1);
    }
  }

  lemma {:induction false} AscendingInWord(ws: seq<Word>, i: nat, n: nat)
    requires i < |ws| && n <= VALUE_SIZE
    ensures |Ascending(ws, VALUE_SIZE * i, VALUE_SIZE * i + n)| == CountLow(ws[i], n)
  {
    if n == 0 {
    } else {
      AscendingInWord(ws, i, n - 1);
      AscendingStep(ws, VALUE_SIZE * i, i, n - 1);
    }
  }

  /** The flag bits set in a word. */
  function FlagCount(w: Word): (n: nat)
    ensures n == 0 <==> w < 0x4000
  {
    (w / 0x4000) % 2 + w / 0x8000
  }

  /** The flag bits set in the first `n` words. */
  function Flags(ws: seq<Word>, n: nat): (c: nat)
    requires n <= |ws|
    ensures c == 0 <==> forall i :: 0 <= i < n ==> ws[i] < 0x4000
  {
    if n == 0 then 0 else Flags(ws, n - 1) + FlagCount(ws[n - 1])
  }

  lemma PopcountOfWord(w: Word)
    ensures Popcount(w) == CountLow(w, VALUE_SIZE) + FlagCount(w)
  {
    hide Popcount, CountLow;
    Powers();
    var low, high := w % 0x4000, w / 0x4000;
    ShlIsMul(high, 14);
    PopcountConcat(low, high, 14);
    PopcountIsCount(low, 14);
    CountLowIgnores(low, high, 14);
    TwoBits(high);
  }

  lemma TwoBits(h: nat)
    requires h < 4
    ensures Popcount(h) == h % 2 + h / 2
  {
    assert Popcount(h / 2) == h / 2;
  }

  lemma {:induction false} CountLowIgnores(low: nat, high: nat, k: nat)
    requires low < Pow2(k)
    ensures CountLow(low + Shl(high, k), k) == CountLow(low, k)
    decreases k
  {
    if k == 0 {
    } else {
      CountLowHalf(low + Shl(high, k), k);
      CountLowHalf(low, k);
      assert (low + Shl(high, k)) / 2 == low / 2 + Shl(high, k - 1);
      CountLowIgnores(low / 2, high, k - 1);
    }
  }

  lemma CountWord(ws: seq<Word>, i: nat)
    requires i < |ws|
    ensures |Ascending(ws, 0, VALUE_SIZE * (i + 1))| + FlagCount(ws[i])
      == |Ascending(ws, 0, VALUE_SIZE * i)| + Popcount(ws[i])
  {
    PopcountOfWord(ws[i]);
    AscendingInWord(ws, i, VALUE_SIZE);
    AscendingSplit(ws, 0, VALUE_SIZE * i, VALUE_SIZE * (i + 1));
  }

  lemma CountBlock(ws: seq<Word>, i: nat)
    requires U64_DIV_BASE * i + 3 < |ws|
    ensures |Ascending(ws, 0, U64_VALUE_SIZE * (i + 1))| + Flags(ws, U64_DIV_BASE * (i + 1))
      == |Ascending(ws, 0, U64_VALUE_SIZE * i)| + Flags(ws, U64_DIV_BASE * i)
         + Popcount(ws[4 * i]) + Popcount(ws[4 * i + 1]) + Popcount(ws[4 * i + 2]) + Popcount(ws[4 * i + 3])
  {
    hide Ascending, Popcount, FlagCount;
    CountWord(ws, 4 * i);
    CountWord(ws, 4 * i + 1);
    CountWord(ws, 4 * i + 2);
    CountWord(ws, 4 * i + 3);
    assert Flags(ws, 4 * i + 2) == Flags(ws, 4 * i) + FlagCount(ws[4 * i]) + FlagCount(ws[4 * i + 1]);
  }

  /** The end of the positions that `getCount` counts: whole blocks of four
      words are counted with their padding. */
  function CountedBits(size: nat, words: nat): (hi: nat) {
    var whole := U64_VALUE_SIZE * (words / U64_DIV_BASE);
    if whole > size then whole else size
  }

  /** What a `uint32_t` counter holds. */
  function Counter(n: nat): (c: nat)
    ensures c < 0x1_0000_0000 && (n - c) % 0x1_0000_0000 == 0
  {
    n % 0x1_0000_0000
  }

  lemma CounterAdds(n: nat, more: nat)
    ensures Counter(Counter(n) + more) == Counter(n + more)
  {}

  /** The bits in whole blocks, flag bits included. */
  ghost function BlockBits(ws: seq<Word>, blocks: nat): nat
    requires U64_DIV_BASE * blocks <= |ws|
  {
    |Ascending(ws, 0, U64_VALUE_SIZE * blocks)| + Flags(ws, U64_DIV_BASE * blocks)
  }

  /** The four-word loop of `getCount`. */
  method CountBlocks(data: array<Word>) returns (count: nat)
    ensures count == Counter(BlockBits(data[..], data.Length / U64_DIV_BASE))
  {
    hide BitSet, Pack, Popcount, CountBits64, Ascending, Descending, FlagCount, Counter;
    NoneYet(data[..], 0);
    count := 0;
    for i := 0 to data.Length / U64_DIV_BASE
      invariant count == Counter(BlockBits(data[..], i))
    {
      CountBlock(data[..], i);
      PackPopcount(data[4 * i], data[4 * i + 1], data[4 * i + 2], data[4 * i + 3]);
      CounterAdds(BlockBits(data[..], i), CountBits64(Load(data, i)));
      count := Counter(count + CountBits64(Load(data, i)));
    }
  }

  /** The bit loop of `getCount` over one word. */
  method CountBitsOf(data: array<Word>, i: nat, size: nat, before: nat, ghost other: nat) returns (count: nat)
    requires i < data.Length && size <= VALUE_SIZE * data.Length
    requires before == Counter(|Ascending(data[..], 0, Min(VALUE_SIZE * i, size))| + other)
    ensures count == Counter(|Ascending(data[..], 0, Min(VALUE_SIZE * (i + 1), size))| + other)
  {
    hide BitSet, BitAt, Counter;
    count := before;
    var n, pos := 0, VALUE_SIZE * i;
    while n < VALUE_SIZE && pos < size
      invariant 0 <= n <= VALUE_SIZE && pos == VALUE_SIZE * i + n
      invariant n > 0 ==> pos <= size
      invariant count == Counter(|Ascending(data[..], 0, Min(pos, size))| + other)
    {
      BitSetAt(data[..], i, n);
      if BitAt(data[i], n) {
        CounterAdds(|Ascending(data[..], 0, pos)| + other, 1);
        count := Counter(count + 1);
      }
      n, pos := n + 1, pos + 1;
    }
  }

  /** What `getCount` counts: the positions of whole blocks and the rest of the bitmap, and
      the flag bits of whole blocks. */
  ghost function CountedIn(ws: seq<Word>, size: nat): (n: nat)
    requires |ws| == WordCount(size)
  {
    |Ascending(ws, 0, CountedBits(size, |ws|))| + Flags(ws, U64_DIV_BASE * (|ws| / U64_DIV_BASE))
  }

  /** The uncompressed branch of `getCount`. */
  method GetCount(b: Bitmap) returns (count: nat)
    requires b.Valid() && !b.compressed
    ensures count == Counter(CountedIn(b.data[..], b.size))
  {
    hide BitSet, BitAt, Expand, Decodable, WordCount, Ascending, Flags, Counter;
    ghost var ws := b.data[..];
    count := CountBlocks(b.data);
    ghost var flags := Flags(ws, U64_DIV_BASE * (b.data.Length / U64_DIV_BASE));
    ghost var hi := CountedBits(b.size, b.data.Length);
    for i := U64_DIV_BASE * (b.data.Length / U64_DIV_BASE) to b.data.Length
      invariant count == Counter(|Ascending(ws, 0, Min(VALUE_SIZE * i, hi))| + flags)
    {
      if b.data[i] != 0 {
        count := CountBitsOf(b.data, i, b.size, count, flags);
      } else {
        ZeroWordHasNoBits(ws, i);
        AscendingSkip(ws, 0, Min(VALUE_SIZE * i, hi), Min(VALUE_SIZE * (i + 1), hi));
      }
    }
  }

  lemma {:induction false} AscendingGrows(ws: seq<Word>, mid: nat, hi: nat, p: nat)
    requires mid <= p < hi <= VALUE_SIZE * |ws| && BitSet(ws, p)
    ensures |Ascending(ws, mid, hi)| > 0
  {
    AscendingIsExact(ws, mid, hi);
    assert p in Ascending(ws, mid, hi);
  }

  lemma {:induction false} AscendingBound(ws: seq<Word>, lo: nat, hi: nat)
    requires lo <= hi <= VALUE_SIZE * |ws|
    ensures |Ascending(ws, lo, hi)| <= hi - lo
  {
    hide BitSet;
    if lo == hi {
    } else {
      AscendingBound(ws, lo, hi - 1);
    }
  }

  lemma {:induction false} FlagsBound(ws: seq<Word>, n: nat)
    requires n <= |ws|
    ensures Flags(ws, n) <= 2 * n
  {
    if n == 0 {
    } else {
      FlagsBound(ws, n - 1);
    }
  }

  /** A counter that goes on by less than 2^32 does not come back to where it was. */
  lemma NoFullTurn(n: nat, more: nat)
    requires n < 0x1_0000_0000 && more < 0x1_0000_0000
    ensures Counter(n + more) == n <==> more == 0
  {}

  /** `getCount` is the number of set positions exactly when no padding bit and no flag
      bit of a whole block is set. */
  lemma GetCountIsExactIff(ws: seq<Word>, size: nat)
    requires |ws| == WordCount(size) && VALUE_SIZE * |ws| < 0x1_0000_0000
    ensures var whole := U64_DIV_BASE * (|ws| / U64_DIV_BASE);
      Counter(CountedIn(ws, size)) == |Ascending(ws, 0, size)|
      <==> (forall p: nat :: size <= p < CountedBits(size, |ws|) ==> !BitSet(ws, p))
           && (forall i :: 0 <= i < whole ==> ws[i] < 0x4000)
  {
    hide BitSet, Flags, Counter;
    var hi := CountedBits(size, |ws|);
    var extra := |Ascending(ws, size, hi)| + Flags(ws, U64_DIV_BASE * (|ws| / U64_DIV_BASE));
    AscendingSplit(ws, 0, size, hi);
    AscendingBound(ws, 0, size);
    AscendingBound(ws, size, hi);
    FlagsBound(ws, U64_DIV_BASE * (|ws| / U64_DIV_BASE));
    NoFullTurn(|Ascending(ws, 0, size)|, extra);
    if p: nat :| size <= p < hi && BitSet(ws, p) {
      AscendingGrows(ws, size, hi, p);
    } else {
      AscendingSkip(ws, 0, size, hi);
    }
  }

  /** For four words filled with the byte 0x3F and a size of 43, `getCount` counts padding. */
  lemma GetCountCountsPadding(ws: seq<Word>)
    requires ws == [0x3F3F, 0x3F3F, 0x3F3F, 0x3F3F]
    ensures |ws| == WordCount(43)
    ensures Counter(CountedIn(ws, 43)) != |Ascending(ws, 0, 43)|
  {
    hide Ascending, BitSet;
    GetCountIsExactIff(ws, 43);
    CountedPadding(ws);
  }

  lemma CountedPadding(ws: seq<Word>)
    requires ws == [0x3F3F, 0x3F3F, 0x3F3F, 0x3F3F]
    ensures 43 < CountedBits(43, 4) && BitSet(ws, 43)
  {
    assert BitAt(0x3F3F, 1);
  }

  // ------------------------------------------------- the operators as set operators

  /** On well-formed words `&=`, `|=` and `~` are intersection, union and
      complement of the sets of positions. */
  lemma OperatorsOnPositions(a: seq<Word>, b: seq<Word>, p: nat)
    requires |a| == |b| && WellFormed(a) && WellFormed(b) && p < VALUE_SIZE * |a|
    ensures BitSet(AndWords(a, b), p) <==> BitSet(a, p) && BitSet(b, p)
    ensures BitSet(OrWords(a, b), p) <==> BitSet(a, p) || BitSet(b, p)
    ensures BitSet(Negated(a), p) <==> !BitSet(a, p)
  {
    hide BitAt, And, Or;
    var i, n := p / VALUE_SIZE, p % VALUE_SIZE;
    AndBit(a[i], b[i], n);
    OrBit(a[i], b[i], n);
    NegatedBits(a, i, n);
  }

  /** On well-formed words `cross` finds a common position. */
  lemma MeetsIsCommonPosition(a: seq<Word>, b: seq<Word>)
    requires |a| == |b| && WellFormed(a) && WellFormed(b)
    ensures Meets(a, b) <==> exists p: nat :: p < VALUE_SIZE * |a| && BitSet(a, p) && BitSet(b, p)
  {
    hide BitAt, And;
    if Meets(a, b) {
      var i :| 0 <= i < |a| && And(a[i], b[i]) != 0;
      Powers();
      var n := NonZeroHasBit(And(a[i], b[i]), 14);
      AndBit(a[i], b[i], n);
      BitSetAt(a, i, n);
      BitSetAt(b, i, n);
    }
    if p: nat :| p < VALUE_SIZE * |a| && BitSet(a, p) && BitSet(b, p) {
      var i, n := p / VALUE_SIZE, p % VALUE_SIZE;
      AndBit(a[i], b[i], n);
      ZeroHasNoBits(n);
      assert And(a[i], b[i]) != 0;
    }
  }
}
