/** Four words of a bitmap read as one 64-bit integer, the unit of the fast
    paths of `Bitmap`. */
module BitmapLanes {
  import opened Bits
  import opened BitmapCodec

  const U64_DIV_BASE: nat := 4
  const U64_VALUE_SIZE: nat := 56

  /** A low word below further words. */
  function Join(low: Word, high: nat): (x: nat) {
    low + 0x10000 * high
  }

  /** A 64-bit load of four consecutive words on a little-endian machine. */
  function Pack(a: Word, b: Word, c: Word, d: Word): (x: nat) {
    Join(a, Join(b, Join(c, d)))
  }

  /** Word `i` of a 64-bit value. */
  function Lane(x: nat, i: nat): (w: Word) {
    if i == 0 then x % 0x10000 else Lane(x / 0x10000, i - 1)
  }

  lemma LanesOfPack(a: Word, b: Word, c: Word, d: Word)
    ensures Lane(Pack(a, b, c, d), 0) == a && Lane(Pack(a, b, c, d), 1) == b
    ensures Lane(Pack(a, b, c, d), 2) == c && Lane(Pack(a, b, c, d), 3) == d
  {
    var cd := Join(c, d);
    var bcd := Join(b, cd);
    LaneOfJoin(a, bcd, 2);
    LaneOfJoin(b, cd, 1);
    LaneOfJoin(c, d, 0);
    LaneOfJoin(a, bcd, 1);
    LaneOfJoin(b, cd, 0);
    LaneOfJoin(a, bcd, 0);
  }

  lemma LaneOfJoin(low: Word, high: nat, i: nat)
    ensures Lane(Join(low, high), 0) == low
    ensures Lane(Join(low, high), i + 1) == Lane(high, i)
  {
    assert Join(low, high) / 0x10000 == high;
  }

  lemma PackIsZero(a: Word, b: Word, c: Word, d: Word)
    ensures Pack(a, b, c, d) == 0 <==> a == 0 && b == 0 && c == 0 && d == 0
  {}

  lemma JoinIsConcat(low: Word, high: nat)
    ensures Join(low, high) == low + Shl(high, 16)
  {
    Powers();
    ShlIsMul(high, 16);
  }

  lemma AndJoin(a: Word, b: nat, c: Word, d: nat)
    ensures And(Join(a, b), Join(c, d)) == Join(And(a, c), And(b, d))
  {
    hide And, Shl;
    Powers();
    AndConcat(a, b, c, d, 16);
    JoinIsConcat(a, b);
    JoinIsConcat(c, d);
    JoinIsConcat(And(a, c), And(b, d));
  }

  lemma PackAnd(a: Word, b: Word, c: Word, d: Word, a': Word, b': Word, c': Word, d': Word)
    ensures And(Pack(a, b, c, d), Pack(a', b', c', d'))
         == Pack(And(a, a'), And(b, b'), And(c, c'), And(d, d'))
  {
    AndJoin(a, Join(b, Join(c, d)), a', Join(b', Join(c', d')));
    AndJoin(b, Join(c, d), b', Join(c', d'));
    AndJoin(c, d, c', d');
  }

  /** Or of two words is a word. */
  function OrWord(a: Word, b: Word): (r: Word)
    ensures r == Or(a, b)
  {
    assert Or(a, b) < 0x10000 by { Powers(); OrBound(a, b, 16); }
    Or(a, b)
  }

  lemma OrJoin(a: Word, b: nat, c: Word, d: nat)
    ensures Or(Join(a, b), Join(c, d)) == Join(OrWord(a, c), Or(b, d))
  {
    hide Or, Shl;
    Powers();
    OrConcat(a, b, c, d, 16);
    JoinIsConcat(a, b);
    JoinIsConcat(c, d);
    JoinIsConcat(OrWord(a, c), Or(b, d));
  }

  lemma PackOr(a: Word, b: Word, c: Word, d: Word, a': Word, b': Word, c': Word, d': Word)
    ensures Or(Pack(a, b, c, d), Pack(a', b', c', d'))
         == Pack(OrWord(a, a'), OrWord(b, b'), OrWord(c, c'), OrWord(d, d'))
  {
    OrJoin(a, Join(b, Join(c, d)), a', Join(b', Join(c', d')));
    OrJoin(b, Join(c, d), b', Join(c', d'));
    OrJoin(c, d, c', d');
  }

  /** `count_bits` of a 64-bit value, computed on its two halves. */
  function CountBits64(x: nat): (n: nat) {
    Popcount(And(x, 0xFFFF_FFFF)) + Popcount(x / 0x1_0000_0000)
  }

  lemma PopcountJoin(a: Word, b: nat)
    ensures Popcount(Join(a, b)) == Popcount(a) + Popcount(b)
  {
    Powers();
    PopcountConcat(a, b, 16);
    JoinIsConcat(a, b);
  }

  lemma LowHalf(x: nat)
    ensures And(x, 0xFFFF_FFFF) == x % 0x1_0000_0000
  {
    Powers();
    AndLowMask(x, 32);
  }

  lemma Halves(a: Word, b: Word, c: Word, d: Word)
    ensures Pack(a, b, c, d) % 0x1_0000_0000 == Join(a, b)
    ensures Pack(a, b, c, d) / 0x1_0000_0000 == Join(c, d)
  {
    assert Pack(a, b, c, d) == Join(a, b) + 0x1_0000_0000 * Join(c, d);
  }

  lemma PackPopcount(a: Word, b: Word, c: Word, d: Word)
    ensures CountBits64(Pack(a, b, c, d)) == Popcount(a) + Popcount(b) + Popcount(c) + Popcount(d)
  {
    LowHalf(Pack(a, b, c, d));
    Halves(a, b, c, d);
    PopcountJoin(a, b);
    PopcountJoin(c, d);
  }

  /** The word-by-word results that the operators on bitmaps must give. */
  function AndWords(a: seq<Word>, b: seq<Word>): (r: seq<Word>)
    requires |a| == |b|
    ensures |r| == |a|
    ensures forall i :: 0 <= i < |a| ==> r[i] == And(a[i], b[i])
  {
    seq(|a|, i requires 0 <= i < |a| => And(a[i], b[i]))
  }

  function OrWords(a: seq<Word>, b: seq<Word>): (r: seq<Word>)
    requires |a| == |b|
    ensures |r| == |a|
    ensures forall i :: 0 <= i < |a| ==> r[i] == Or(a[i], b[i])
  {
    seq(|a|, i requires 0 <= i < |a| => OrWord(a[i], b[i]))
  }

  /** Some bit is set in both sequences, as far as both go. */
  predicate Meets(a: seq<Word>, b: seq<Word>) {
    exists i :: 0 <= i < |a| && i < |b| && And(a[i], b[i]) != 0
  }

  /** `And` with, and `Or` of, the literals of a run. */
  lemma SolidAndOr(w: Word)
    ensures And(w, Solid(true)) == Payload(w) && And(w, Solid(false)) == 0
    ensures Or(Payload(w), Solid(true)) == Solid(true) && Or(w, Solid(false)) == w
  {
    Powers();
    AndLowMask(w, 14);
    OrBound(Payload(w), 0x3FFF, 14);
  }

  /** The flag bits of a word play no part in what a payload does to its payload. */
  lemma PayloadAndOr(w: Word, p: Word)
    requires p < 0x4000
    ensures And(w, p) == And(Payload(w), p) < 0x4000
    ensures Payload(OrWord(w, p)) == Or(Payload(w), p)
  {
    hide And, Or, Shl, Pow2;
    Powers();
    var low, high := w % 0x4000, w / 0x4000;
    ShlIsMul(high, 14);
    ShlIsMul(0, 14);
    AndConcat(low, high, p, 0, 14);
    OrConcat(low, high, p, 0, 14);
    AndNone(high);
    OrNothing(high);
    OrBound(low, p, 14);
  }

  lemma OrNothing(a: nat)
    ensures Or(a, 0) == a
  {}

  /** What `&=` with a compressed operand leaves of `was` under the decoded word `w`: the
      flags survive only where `w` comes from a run of ones. */
  function Anded(was: Word, w: Word, one: bool): Word { if one then was else And(was, w) }

  lemma AndedPayload(was: Word, w: Word, one: bool)
    requires w < 0x4000 && (one ==> w == Solid(true))
    ensures var now := Anded(was, w, one); Payload(now) == And(was, w) && (was < 0x4000 ==> now == And(was, w))
  {
    hide And, Or, Payload;
    var now := Anded(was, w, one);
    SolidAndOr(was);
    PayloadAndOr(was, w);
    NoFlags(was);
    NoFlags(now);
  }

  lemma NoFlags(w: Word)
    ensures w < 0x4000 ==> Payload(w) == w
  {}

  /** The same for `|=`: the flags are lost only there. */
  function Ored(was: Word, w: Word, one: bool): Word { if one then Solid(true) else OrWord(was, w) }

  lemma OredPayload(was: Word, w: Word, one: bool)
    requires w < 0x4000 && (one ==> w == Solid(true))
    ensures var now := Ored(was, w, one); Payload(now) == Or(Payload(was), w) && (was < 0x4000 ==> now == Or(was, w))
  {
    hide Or, And, Payload;
    NoFlags(was);
    NoFlags(w);
    SolidAndOr(was);
    PayloadAndOr(was, w);
  }
}
