/** `Bitmap::iterator` and `Bitmap::iterator_reverse`: cursors that move to the
    next set bit, and the enumeration a client gets from them. */
module BitmapIterators {
  import opened Bits
  import opened BitmapCodec
  import opened Bitmaps
  import opened BitmapScan

  /** No set bit in [lo, hi). */
  ghost predicate NoneSet(ws: seq<Word>, lo: int, hi: int) {
    forall p: nat :: lo <= p < hi && p < VALUE_SIZE * |ws| ==> !BitSet(ws, p)
  }

  lemma NoneSetGrows(ws: seq<Word>, lo: int, i: nat, n: nat)
    requires i < |ws| && n < VALUE_SIZE && NoneSet(ws, lo, VALUE_SIZE * i + n) && !BitAt(ws[i], n)
    ensures NoneSet(ws, lo, VALUE_SIZE * i + n + 1)
  {
    BitSetAt(ws, i, n);
  }

  lemma NoneSetSkips(ws: seq<Word>, lo: int, i: nat)
    requires i < |ws| && ws[i] == 0 && NoneSet(ws, lo, VALUE_SIZE * i)
    ensures NoneSet(ws, lo, VALUE_SIZE * (i + 1))
  {
    ZeroWordHasNoBits(ws, i);
  }

  lemma NoneSetGrowsDown(ws: seq<Word>, i: nat, n: nat, hi: int)
    requires i < |ws| && n < VALUE_SIZE && NoneSet(ws, VALUE_SIZE * i + n + 1, hi) && !BitAt(ws[i], n)
    ensures NoneSet(ws, VALUE_SIZE * i + n, hi)
  {
    BitSetAt(ws, i, n);
  }

  lemma NoneSetSkipsDown(ws: seq<Word>, i: nat, hi: int)
    requires i < |ws| && ws[i] == 0 && NoneSet(ws, VALUE_SIZE * (i + 1), hi)
    ensures NoneSet(ws, VALUE_SIZE * i, hi)
  {
    ZeroWordHasNoBits(ws, i);
  }

  class ForwardIterator {
    const data: array<Word>
    /** `int32_t`, while the bitmap's own size is a `uint32_t`. */
    const size: int
    ghost const bits: nat
    var pos: int

    ghost predicate Valid() {
      data.Length == WordCount(bits) && bits < 0x1_0000_0000 && size == Int32(bits)
    }

    /** `operator!`, which answers whether the iterator is at a position. */
    predicate More()
      reads this
    {
      0 <= pos < size
    }

    /** `pos` is the least set position after `from`; at the end there is none. */
    ghost predicate AtNext(from: int)
      reads this, data
      requires Valid()
    {
      if More() then from < pos && NoneSet(data[..], from + 1, pos) && BitSet(data[..], pos)
      else NoneSet(data[..], from + 1, size)
    }

    constructor (b: Bitmap)
      requires b.Valid() && !b.compressed
      ensures Valid() && data == b.data && bits == b.size
      ensures AtNext(-1)
    {
      data := b.data;
      size := Int32(b.size);
      bits := b.size;
      pos := -1;
      new;
      Next();
    }

    /** The bits of word `i` from bit `n` on. */
    method ScanFrom(i: nat, n: nat, ghost from: int) returns (found: bool)
      requires Valid() && i < data.Length && n <= VALUE_SIZE && pos == VALUE_SIZE * i + n <= size
      requires from < pos && NoneSet(data[..], from + 1, pos)
      modifies this`pos
      ensures found ==> More() && AtNext(from)
      ensures !found ==> from < pos <= size && NoneSet(data[..], from + 1, pos)
      ensures !found && pos < size ==> pos == VALUE_SIZE * (i + 1)
    {
      hide BitAt, BitSet, NoneSet;
      var k := n;
      while k < VALUE_SIZE && pos < size
        invariant n <= k <= VALUE_SIZE && from < pos == VALUE_SIZE * i + k <= size
        invariant NoneSet(data[..], from + 1, pos)
      {
        BitSetAt(data[..], i, k);
        if BitAt(data[i], k) {
          return true;
        }
        NoneSetGrows(data[..], from + 1, i, k);
        k, pos := k + 1, pos + 1;
      }
      return false;
    }

    /** The rest of the current word. */
    method FinishWord(ghost from: int) returns (found: bool)
      requires Valid() && from < pos && 0 <= pos && (pos > 0 ==> pos <= size) && NoneSet(data[..], from + 1, pos)
      modifies this`pos
      ensures found ==> More() && AtNext(from)
      ensures !found ==> from < pos && 0 <= pos && NoneSet(data[..], from + 1, pos)
      ensures !found && pos < size ==> pos % VALUE_SIZE == 0 && pos / VALUE_SIZE < data.Length
    {
      hide BitAt, BitSet, NoneSet, Int32;
      found := false;
      if pos % VALUE_SIZE != 0 {
        found := ScanFrom(pos / VALUE_SIZE, pos % VALUE_SIZE, from);
      }
    }

    /** `iterator::next`: the rest of the current word, then word by word, zero
        words skipped.  Beyond the last word the skip may wrap around. */
    method Next()
      requires Valid() && (pos == -1 || More())
      modifies this`pos
      ensures AtNext(old(pos))
    {
      ghost var from := pos;
      ghost var ws := data[..];
      pos := pos + 1;
      assert NoneSet(ws, from + 1, pos);
      hide BitAt, BitSet, NoneSet, Int32;
      var found := FinishWord(from);
      if found {
        return;
      }
      var i := pos / VALUE_SIZE;
      while i < data.Length && pos < size
        invariant 0 <= i && -0x8000_0000 <= pos
        invariant if i < data.Length && pos < size then from < pos == VALUE_SIZE * i && NoneSet(ws, from + 1, pos)
                  else !More() && NoneSet(ws, from + 1, size)
      {
        if data[i] == 0 {
          ZeroWord(from, i);
          pos := Int32(pos + VALUE_SIZE);
        } else {
          found := ScanFrom(i, 0, from);
          if found {
            return;
          }
          AllSeen(from, i + 1);
        }
        i := i + 1;
      }
    }

    /** The skip over a zero word, which leaves the range of positions only behind the last. */
    lemma ZeroWord(from: int, i: nat)
      requires Valid() && i < data.Length && data[i] == 0
      requires from < pos == VALUE_SIZE * i < size && NoneSet(data[..], from + 1, pos)
      ensures var next := Int32(pos + VALUE_SIZE);
        if i + 1 < data.Length && next < size then next == VALUE_SIZE * (i + 1) && NoneSet(data[..], from + 1, next)
        else !(0 <= next < size) && NoneSet(data[..], from + 1, size)
    {
      hide NoneSet;
      NoneSetSkips(data[..], from + 1, i);
      if size <= VALUE_SIZE * (i + 1) {
        NoneSetShrinks(data[..], from + 1, size, VALUE_SIZE * (i + 1));
      }
    }

    /** Nothing is left to look at when the position or the words run out. */
    lemma AllSeen(from: int, i: nat)
      requires Valid() && 0 <= pos && NoneSet(data[..], from + 1, pos)
      requires pos < size ==> pos == VALUE_SIZE * i
      ensures pos < size ==> i < data.Length
      ensures pos >= size ==> NoneSet(data[..], from + 1, size)
    {}
  }

  lemma NoneSetShrinks(ws: seq<Word>, lo: int, mid: int, hi: int)
    requires mid <= hi && NoneSet(ws, lo, hi)
    ensures NoneSet(ws, lo, mid)
  {}

  class ReverseIterator {
    const data: array<Word>
    const size: int
    ghost const bits: nat
    var pos: int

    ghost predicate Valid() {
      data.Length == WordCount(bits) && bits < 0x1_0000_0000 && size == Int32(bits)
    }

    predicate More()
      reads this
    {
      0 <= pos < size
    }

    /** `pos` is the greatest set position before `from`, -1 if there is none. */
    ghost predicate AtPrevious(from: int)
      reads this, data
      requires Valid()
    {
      && -1 <= pos && (pos < from || pos == -1) && NoneSet(data[..], pos + 1, from)
      && (More() ==> BitSet(data[..], pos))
    }

    constructor (b: Bitmap)
      requires b.Valid() && !b.compressed
      ensures Valid() && data == b.data && bits == b.size
      ensures AtPrevious(if size < 0 then 0 else size)
    {
      data := b.data;
      size := Int32(b.size);
      bits := b.size;
      pos := Int32(b.size);
      new;
      Next();
    }

    /** The bits of word `i` from bit `n` down. */
    method ScanFrom(i: nat, n: nat, ghost from: int) returns (found: bool)
      requires Valid() && i < data.Length && n < VALUE_SIZE && pos == VALUE_SIZE * i + n < from <= size
      requires NoneSet(data[..], pos + 1, from)
      modifies this`pos
      ensures found ==> AtPrevious(from)
      ensures !found ==> pos == VALUE_SIZE * i - 1 && NoneSet(data[..], pos + 1, from)
    {
      hide BitAt, BitSet, NoneSet;
      var k: int := n;
      while k >= 0 && pos >= 0
        invariant -1 <= k <= n && pos == VALUE_SIZE * i + k < from
        invariant NoneSet(data[..], pos + 1, from)
      {
        BitSetAt(data[..], i, k);
        if BitAt(data[i], k) {
          return true;
        }
        NoneSetGrowsDown(data[..], i, k, from);
        k, pos := k - 1, pos - 1;
      }
      return false;
    }

    /** `iterator_reverse::next`. */
    method Next()
      requires Valid() && (pos == -1 || pos <= size)
      modifies this`pos
      ensures AtPrevious(if old(pos) < 0 then 0 else old(pos))
    {
      ghost var from := pos;
      ghost var ws := data[..];
      if pos <= 0 {
        pos := -1;
        return;
      }
      pos := pos - 1;
      assert NoneSet(ws, pos + 1, from);
      hide BitAt, BitSet, NoneSet;
      var i := pos / VALUE_SIZE;
      if pos % VALUE_SIZE != VALUE_SIZE - 1 {
        var found := ScanFrom(i, pos % VALUE_SIZE, from);
        if found {
          return;
        }
        i := i - 1;
      }
      while i >= 0 && pos >= 0
        invariant -1 <= i < data.Length && pos == VALUE_SIZE * (i + 1) - 1 < from
        invariant NoneSet(ws, pos + 1, from)
      {
        if data[i] == 0 {
          NoneSetSkipsDown(ws, i, from);
          pos := pos - VALUE_SIZE;
        } else {
          var found := ScanFrom(i, VALUE_SIZE - 1, from);
          if found {
            return;
          }
        }
        i := i - 1;
      }
    }
  }

  lemma AscendingNext(ws: seq<Word>, done: nat, pos: nat)
    requires done <= pos < VALUE_SIZE * |ws| && NoneSet(ws, done, pos) && BitSet(ws, pos)
    ensures Ascending(ws, 0, pos + 1) == Ascending(ws, 0, done) + [pos]
  {
    AscendingSkip(ws, 0, done, pos);
  }

  lemma DescendingNext(ws: seq<Word>, pos: nat, done: nat, hi: nat)
    requires pos < done <= hi <= VALUE_SIZE * |ws| && NoneSet(ws, pos + 1, done) && BitSet(ws, pos)
    ensures Descending(ws, pos, hi) == Descending(ws, done, hi) + [pos]
  {
    DescendingSkip(ws, pos + 1, done, hi);
  }

  /** The positions that the iterators find: from 2^31 bits on, their size is negative. */
  ghost function Walked(ws: seq<Word>, size: nat): (s: seq<nat>)
    requires size <= VALUE_SIZE * |ws|
  {
    if size < 0x8000_0000 then Ascending(ws, 0, size) else []
  }

  /** Walking the forward iterator to its end visits the set bits in increasing order. */
  method CollectForward(b: Bitmap) returns (s: seq<nat>)
    requires b.Valid() && !b.compressed
    ensures s == Walked(b.data[..], b.size)
  {
    ghost var ws := b.data[..];
    assert Ascending(ws, 0, 0) == [];
    hide Ascending, BitSet, Expand, Decodable, WordCount;
    var it := new ForwardIterator(b);
    s := [];
    ghost var done := 0;
    while it.More()
      invariant it.Valid() && it.data == b.data && it.bits == b.size && b.data[..] == ws
      invariant 0 <= done <= b.size && s == Ascending(ws, 0, done)
      invariant it.AtNext(done - 1) && (done == 0 || it.size >= 0)
      decreases if it.More() then it.size - it.pos else 0
    {
      AscendingNext(ws, done, it.pos);
      s := s + [it.pos];
      done := it.pos + 1;
      it.Next();
    }
    if it.size >= 0 {
      AscendingSkip(ws, 0, done, b.size);
    }
  }

  /** Walking the reverse iterator to its end visits them in decreasing order. */
  method CollectReverse(b: Bitmap) returns (s: seq<nat>)
    requires b.Valid() && !b.compressed
    ensures s == Reversed(Walked(b.data[..], b.size))
  {
    ghost var ws := b.data[..];
    assert Descending(ws, b.size, b.size) == [];
    hide Ascending, Descending, BitSet, Expand, Decodable, WordCount;
    var it := new ReverseIterator(b);
    s := [];
    ghost var done := b.size;
    while it.More()
      invariant it.Valid() && it.data == b.data && it.bits == b.size && b.data[..] == ws
      invariant 0 <= done <= b.size && s == Descending(ws, done, b.size)
      invariant if it.size < 0 then !it.More() && s == [] else it.AtPrevious(done)
      decreases if it.More() then it.pos else -1
    {
      DescendingNext(ws, it.pos, done, b.size);
      s := s + [it.pos];
      done := it.pos;
      it.Next();
    }
    if it.size >= 0 {
      DescendingSkip(ws, 0, done, b.size);
      DescendingIsReversed(ws, 0, b.size);
    }
  }

  /** Both walks find every set position exactly when the size fits an `int32_t`, or there is
      nothing to find. */
  lemma WalkIsCompleteIff(ws: seq<Word>, size: nat)
    requires size <= VALUE_SIZE * |ws|
    ensures var all := Ascending(ws, 0, size);
      var fits := size < 0x8000_0000 || forall p: nat :: p < size ==> !BitSet(ws, p);
      (Walked(ws, size) == all <==> fits) && (Reversed(Walked(ws, size)) == Reversed(all) <==> fits)
  {
    hide BitSet, Ascending;
    var all := Ascending(ws, 0, size);
    AscendingIsExact(ws, 0, size);
    if size >= 0x8000_0000 && all != [] {
      assert all[0] in all;
      assert |Reversed(all)| == |all|;
    }
  }

  /** A bitmap of 2^31 bits filled with the byte 1 can be made, has bits set, and neither
      iterator finds any. */
  lemma HugeBitmapLooksEmpty(ws: seq<Word>)
    requires |ws| == WordCount(0x8000_0000) && forall i :: 0 <= i < |ws| ==> ws[i] == 0x101
    ensures VALUE_SIZE * WordCount(0x8000_0000) < 0x1_0000_0000
    ensures Walked(ws, 0x8000_0000) == Reversed(Walked(ws, 0x8000_0000)) == []
    ensures 0 in Ascending(ws, 0, 0x8000_0000)
  {
    hide Ascending;
    AscendingIsExact(ws, 0, 0x8000_0000);
    assert BitSet(ws, 0);
  }
}
