/** A flat byte sequence with a cursor, and how equal chunks make one up. */
module ByteTapes {
  import Bits

  type Byte = x: nat | x < 256

  /** `bytes` is everything allocated; the first `size` bytes are the written ones. */
  datatype Tape = Tape(bytes: seq<Byte>, position: nat, size: nat)

  ghost predicate InRange(t: Tape) {
    t.position <= t.size <= |t.bytes|
  }

  ghost function Zeros(n: nat): (s: seq<Byte>)
    ensures |s| == n && forall k :: 0 <= k < n ==> s[k] == 0
  {
    seq(n, _ => 0)
  }

  ghost function Overwrite(s: seq<Byte>, at: nat, piece: seq<Byte>): (r: seq<Byte>)
    requires at + |piece| <= |s|
    ensures |r| == |s|
  {
    s[..at] + piece + s[at + |piece|..]
  }

  /** The bytes in `n` chunks. */
  function Span(n: nat, base: nat): nat {
    n * base
  }

  /** The place of a position inside its chunk. */
  function Offset(position: nat, base: nat): nat
    requires base > 0
  {
    position % base
  }

  lemma OffsetBelow(position: nat, base: nat)
    requires base > 0
    ensures Offset(position, base) < base
  {}

  function ChunkOf(position: nat, base: nat): nat
    requires base > 0
  {
    position / base
  }

  /** The number of chunks of `base` bytes needed to hold `need` bytes where `have` fit. */
  function Missing(have: nat, need: nat, base: nat): (count: nat)
    requires base > 0
    ensures have + Span(count, base) >= need
    ensures count > 0 ==> have + Span(count - 1, base) < need
  {
    if need <= have then 0
    else
      var lack := need - have;
      assert Span((lack + base - 1) / base, base) + (lack + base - 1) % base == lack + base - 1;
      (lack + base - 1) / base
  }

  ghost function Grown(bytes: seq<Byte>, need: nat, base: nat): (r: seq<Byte>)
    requires base > 0
    ensures |r| >= need && bytes <= r
  {
    bytes + Zeros(Span(Missing(|bytes|, need, base), base))
  }

  /** What writing `buf` at the cursor does: room is added if needed, exactly the bytes under
      the cursor change, and the cursor ends after them. */
  ghost function Written(t: Tape, buf: seq<Byte>, base: nat): (r: Tape)
    requires InRange(t) && base > 0
    ensures InRange(r)
  {
    if buf == [] then t
    else
      var end := t.position + |buf|;
      Tape(Overwrite(Grown(t.bytes, end, base), t.position, buf), end, if end > t.size then end else t.size)
  }

  /** The bytes between the cursor and the end of the data. */
  ghost function Rest(t: Tape): seq<Byte>
    requires InRange(t)
  {
    t.bytes[t.position..t.size]
  }

  lemma OverwriteMore(s: seq<Byte>, at: nat, a: seq<Byte>, b: seq<Byte>)
    requires at + |a| + |b| <= |s|
    ensures Overwrite(Overwrite(s, at, a), at + |a|, b) == Overwrite(s, at, a + b)
  {}

  lemma NothingWritten(s: seq<Byte>, at: nat)
    requires at <= |s|
    ensures Overwrite(s, at, []) == s
  {}

  /** A write is read back by whoever reads at the same place, and nothing else changes. */
  lemma WrittenBytes(t: Tape, buf: seq<Byte>, base: nat)
    requires InRange(t) && base > 0
    ensures var r := Written(t, buf, base);
      && |r.bytes| >= |t.bytes| && r.position == t.position + |buf|
      && r.bytes[t.position..r.position] == buf
      && r.bytes[..t.position] == t.bytes[..t.position]
      && (forall k :: r.position <= k < |t.bytes| ==> r.bytes[k] == t.bytes[k])
  {}

  /** `r` is `t` after `buf` went under the cursor: room may have been added behind. */
  ghost predicate Wrote(t: Tape, buf: seq<Byte>, r: Tape) {
    && InRange(t) && InRange(r)
    && |t.bytes| <= |r.bytes|
    && r.position == t.position + |buf|
    && r.size == (if r.position > t.size then r.position else t.size)
    && r.bytes[t.position..r.position] == buf
    && r.bytes[..t.position] == t.bytes[..t.position]
    && (forall k :: r.position <= k < |t.bytes| ==> r.bytes[k] == t.bytes[k])
  }

  lemma WrittenWrote(t: Tape, buf: seq<Byte>, base: nat)
    requires InRange(t) && base > 0
    ensures Wrote(t, buf, Written(t, buf, base))
  {
    WrittenBytes(t, buf, base);
  }

  lemma WroteMore(t: Tape, a: seq<Byte>, r: Tape, b: seq<Byte>, u: Tape)
    requires Wrote(t, a, r) && Wrote(r, b, u)
    ensures Wrote(t, a + b, u)
  {
    assert u.bytes[..t.position] == u.bytes[..r.position][..t.position];
    assert u.bytes[t.position..r.position] == u.bytes[..r.position][t.position..] == a;
    assert u.bytes[t.position..u.position] == u.bytes[t.position..r.position] + u.bytes[r.position..u.position];
    forall k | u.position <= k < |t.bytes|
      ensures u.bytes[k] == t.bytes[k]
    {
      assert u.bytes[k] == r.bytes[k];
    }
  }

  lemma WroteNothing(t: Tape)
    requires InRange(t)
    ensures Wrote(t, [], t)
  {}

  ghost function Flat(chunks: seq<seq<Byte>>): seq<Byte> {
    if chunks == [] then [] else Flat(chunks[..|chunks| - 1]) + chunks[|chunks| - 1]
  }

  ghost predicate Uniform(chunks: seq<seq<Byte>>, base: nat) {
    forall i :: 0 <= i < |chunks| ==> |chunks[i]| == base
  }

  lemma {:induction false} FlatLength(chunks: seq<seq<Byte>>, base: nat)
    requires Uniform(chunks, base)
    ensures |Flat(chunks)| == Span(|chunks|, base)
  {
    if chunks == [] {
    } else {
      var n: nat := |chunks| - 1;
      FlatLength(chunks[..n], base);
      OneMore(n, base);
    }
  }

  lemma OneMore(n: nat, base: nat)
    ensures Span(n + 1, base) == Span(n, base) + base
  {}

  lemma NoMore(bytes: seq<Byte>, base: nat)
    ensures Span(0, base) == 0 && bytes + Zeros(0) == bytes
  {}

  lemma MissingNone(have: nat, need: nat, base: nat)
    requires base > 0
    ensures Missing(have, need, base) == 0 <==> need <= have
  {}

  /** A chunk of zeros behind the last one. */
  lemma FlatAppend(chunks: seq<seq<Byte>>, base: nat, bytes: seq<Byte>, n: nat)
    requires Flat(chunks) == bytes + Zeros(Span(n, base))
    ensures Flat(chunks + [Zeros(base)]) == bytes + Zeros(Span(n + 1, base))
  {
    OneMore(n, base);
    assert (chunks + [Zeros(base)])[..|chunks|] == chunks;
    assert Zeros(Span(n, base)) + Zeros(base) == Zeros(Span(n + 1, base));
  }

  lemma {:induction false} FlatSplit(chunks: seq<seq<Byte>>, idx: nat, base: nat)
    requires Uniform(chunks, base) && idx < |chunks|
    ensures Span(idx + 1, base) <= |Flat(chunks)| && Span(idx, base) + base == Span(idx + 1, base)
    ensures Flat(chunks)[..Span(idx, base)] == Flat(chunks[..idx])
    ensures Flat(chunks)[Span(idx, base)..Span(idx + 1, base)] == chunks[idx]
  {
    FlatLength(chunks[..idx], base);
    FlatLength(chunks[..|chunks| - 1], base);
    var last := |chunks| - 1;
    if idx == last {
    } else {
      FlatSplit(chunks[..last], idx, base);
      assert chunks[..last][..idx] == chunks[..idx];
    }
  }

  /** Writing inside one chunk is writing at its place in the whole. */
  lemma {:induction false} FlatOverwrite(chunks: seq<seq<Byte>>, idx: nat, base: nat, offset: nat, piece: seq<Byte>)
    requires Uniform(chunks, base) && idx < |chunks| && offset + |piece| <= base
    ensures Span(idx, base) + offset + |piece| <= |Flat(chunks)|
    ensures Flat(chunks[idx := Overwrite(chunks[idx], offset, piece)])
         == Overwrite(Flat(chunks), Span(idx, base) + offset, piece)
  {
    var after := chunks[idx := Overwrite(chunks[idx], offset, piece)];
    var last := |chunks| - 1;
    FlatLength(chunks[..last], base);
    if idx < last {
      FlatOverwrite(chunks[..last], idx, base, offset, piece);
      assert after[..last] == chunks[..last][idx := Overwrite(chunks[idx], offset, piece)];
    } else {
      assert after[..last] == chunks[..last];
    }
  }

  /** Reading inside one chunk is reading at its place in the whole. */
  lemma FlatRead(chunks: seq<seq<Byte>>, idx: nat, base: nat, offset: nat, n: nat)
    requires Uniform(chunks, base) && idx < |chunks| && offset + n <= base
    ensures Span(idx, base) + offset + n <= |Flat(chunks)|
    ensures Flat(chunks)[Span(idx, base) + offset..Span(idx, base) + offset + n] == chunks[idx][offset..offset + n]
  {
    FlatSplit(chunks, idx, base);
    var part := Flat(chunks)[Span(idx, base)..Span(idx + 1, base)];
    assert part[offset..offset + n] == Flat(chunks)[Span(idx, base) + offset..Span(idx, base) + offset + n];
  }

  lemma MulMono(m: nat, n: nat, base: nat)
    requires m <= n
    ensures Span(m, base) <= Span(n, base)
  {}

  /** A position up to the end of `n` chunks is in one of them, or exactly at the end. */
  lemma CursorBelow(position: nat, base: nat, n: nat)
    requires base > 0 && position <= Span(n, base)
    ensures if position == Span(n, base) then ChunkOf(position, base) == n else ChunkOf(position, base) < n
  {
    if position == Span(n, base) {
      Bits.DivModUnique(position, base, n, 0);
    } else if position / base >= n {
      MulMono(n, position / base, base);
    }
  }

  /** Where a cursor is, and where it goes when it moves inside its chunk or to its end. */
  lemma Locate(position: nat, base: nat, count: nat, n: nat)
    requires base > 0 && position < Span(count, base) && Offset(position, base) + n <= base
    ensures ChunkOf(position, base) < count && Offset(position, base) < base
    ensures position == Span(ChunkOf(position, base), base) + Offset(position, base)
    ensures Offset(position, base) + n < base ==> ChunkOf(position + n, base) == ChunkOf(position, base)
    ensures Offset(position, base) + n == base ==>
      ChunkOf(position + n, base) == ChunkOf(position, base) + 1 && Offset(position + n, base) == 0
  {
    CursorBelow(position, base, count);
    var idx, offset := position / base, position % base;
    if offset + n < base {
      Bits.DivModUnique(position + n, base, idx, offset + n);
    } else {
      OneMore(idx, base);
      Bits.DivModUnique(position + n, base, idx + 1, 0);
    }
  }
}
