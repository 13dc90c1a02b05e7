/** The two word formats of `Bitmap` and the meaning of the run-length
    compressed one.

    An uncompressed word carries 14 payload bits.  A compressed bitmap mixes
    such literals with run words: bit 15 marks a run, bit 14 is the repeated
    value, and the low 14 bits are one base-2^14 digit of the number of
    repeated bits.  Consecutive run words of the same value form one group whose
    digits come least significant first. */
module BitmapCodec {
  import opened Bits

  type Word = w: nat | w < 0x10000

  const VALUE_SIZE: nat := 14
  const COMPRESS_MASK: Word := 0x8000
  const VALUE_MASK: Word := 0x4000
  const COUNT_MASK: Word := 0x3FFF

  /** `cur & COMPRESS_MASK` */
  predicate IsRun(w: Word) { w >= 0x8000 }

  /** `cur & VALUE_MASK` */
  predicate RunValue(w: Word) { (w / 0x4000) % 2 == 1 }

  /** `cur & COUNT_MASK` */
  function Payload(w: Word): (p: Word) { w % 0x4000 }

  /** The arithmetic readings above are the masks of the source. */
  lemma MasksAreArithmetic(w: Word)
    ensures And(w, COMPRESS_MASK) != 0 <==> IsRun(w)
    ensures And(w, VALUE_MASK) != 0 <==> RunValue(w)
    ensures And(w, COUNT_MASK) == Payload(w)
  {
    hide And, Shl, Pow2;
    Powers();
    FlagBit(w % 0x8000, w / 0x8000, 15);
    FlagBit(w % 0x4000, w / 0x4000, 14);
    AndLowMask(w, 14);
  }

  /** A mask of one bit picks that bit. */
  lemma FlagBit(low: nat, high: nat, k: nat)
    requires low < Pow2(k)
    ensures And(low + high * Pow2(k), Pow2(k)) == high % 2 * Pow2(k)
  {
    hide And, Shl, Pow2;
    ShlIsMul(high, k);
    ShlIsMul(1, k);
    ShlIsMul(high % 2, k);
    AndConcat(low, high, 0, 1, k);
    AndNone(low);
    LowBit(high);
  }

  lemma LowBit(a: nat)
    ensures And(a, 1) == a % 2
  {
    Powers();
    AndLowMask(a, 1);
  }

  lemma AndNone(a: nat)
    ensures And(a, 0) == 0
  {}

  /** Both flag bits of every word are clear. */
  predicate WellFormed(ws: seq<Word>) {
    forall i :: 0 <= i < |ws| ==> ws[i] < 0x4000
  }

  /** The literal that stands for 14 equal bits. */
  function Solid(v: bool): (w: Word) { if v then COUNT_MASK else 0 }

  function Repeat(v: bool, n: nat): (ws: seq<Word>)
    ensures |ws| == n && WellFormed(ws)
  {
    seq(n, _ => Solid(v))
  }

  /** Tests of `compress` on the number of payload bits that are set. */
  lemma PopcountOfPayload(w: Word)
    ensures Popcount(Payload(w)) == 0 <==> Payload(w) == Solid(false)
    ensures Popcount(Payload(w)) == VALUE_SIZE <==> Payload(w) == Solid(true)
  {
    PopcountFull(Payload(w), 14);
    Powers();
  }

  lemma {:induction false} PopcountFull(w: nat, k: nat)
    requires w < Pow2(k)
    ensures Popcount(w) <= k
    ensures Popcount(w) == k <==> w == Pow2(k) - 1
  {
    if k == 0 {
    } else {
      PopcountFull(w / 2, k - 1);
    }
  }

  // ---------------------------------------------------------------- encoding

  function RunWord(v: bool, digit: nat): (w: Word)
    requires digit < 0x4000
    ensures IsRun(w) && RunValue(w) == v && Payload(w) == digit
  {
    0x8000 + (if v then 0x4000 else 0) + digit
  }

  /** The digits of a bit count, least significant first. */
  function Chunks(v: bool, bits: nat): (c: seq<Word>)
    ensures bits > 0 ==> |c| > 0
  {
    if bits == 0 then [] else [RunWord(v, bits % 0x4000)] + Chunks(v, bits / 0x4000)
  }

  /** What is written for a pending run: digits when it is longer than one
      word, a literal when it is one word, nothing when it is empty. */
  function Flush(v: bool, bits: nat): (c: seq<Word>) {
    if bits / VALUE_SIZE > 1 then Chunks(v, bits)
    else if bits > 0 then [Solid(v)]
    else []
  }

  /** The words produced for `ws` with a run of `bits` bits of value `v` pending. */
  function Encode(ws: seq<Word>, v: bool, bits: nat): (c: seq<Word>)
    decreases |ws|
  {
    if ws == [] then Flush(v, bits)
    else if Payload(ws[0]) == Solid(v) then Encode(ws[1..], v, bits + VALUE_SIZE)
    else if Payload(ws[0]) == Solid(!v) then Flush(v, bits) + Encode(ws[1..], !v, VALUE_SIZE)
    else Flush(v, bits) + [ws[0]] + Encode(ws[1..], v, 0)
  }

  function Compressed(ws: seq<Word>): (c: seq<Word>) { Encode(ws, false, 0) }

  // ---------------------------------------------------------------- decoding

  /** The number of leading run words of value `v`. */
  function GroupLen(c: seq<Word>, v: bool): (n: nat)
    ensures n <= |c|
  {
    if c == [] || !IsRun(c[0]) || RunValue(c[0]) != v then 0
    else 1 + GroupLen(c[1..], v)
  }

  /** The bit count a group of run words denotes. */
  function GroupCount(c: seq<Word>): (n: nat) {
    if c == [] then 0 else Payload(c[0]) + 0x4000 * GroupCount(c[1..])
  }

  /** The uncompressed words that a compressed sequence stands for. */
  function Expand(c: seq<Word>): (ws: seq<Word>)
    ensures WellFormed(ws)
    decreases |c|
  {
    if c == [] then []
    else if IsRun(c[0]) then
      var v := RunValue(c[0]);
      var g := GroupLen(c, v);
      Repeat(v, GroupCount(c[..g]) / VALUE_SIZE) + Expand(c[g..])
    else [Payload(c[0])] + Expand(c[1..])
  }

  /** Which of these words come from a run of ones. */
  ghost function InOnes(c: seq<Word>): (r: seq<bool>)
    ensures |r| == |Expand(c)| && forall j :: 0 <= j < |r| && r[j] ==> Expand(c)[j] == Solid(true)
    decreases |c|
  {
    if c == [] then []
    else if IsRun(c[0]) then
      var v := RunValue(c[0]);
      var g := GroupLen(c, v);
      seq(GroupCount(c[..g]) / VALUE_SIZE, _ => v) + InOnes(c[g..])
    else [false] + InOnes(c[1..])
  }

  /** Every group denotes a whole number of words and fits 32 bits, so that it
      has at most three digits. */
  predicate Decodable(c: seq<Word>)
    decreases |c|
  {
    c == [] ||
    if IsRun(c[0]) then
      var v := RunValue(c[0]);
      var g := GroupLen(c, v);
      && g <= 3
      && GroupCount(c[..g]) < 0x1_0000_0000
      && GroupCount(c[..g]) % VALUE_SIZE == 0
      && Decodable(c[g..])
    else Decodable(c[1..])
  }

  // -------------------------------------------------------------- round trip

  /** `rest` does not go on with a run of value `v`. */
  predicate Breaks(rest: seq<Word>, v: bool) {
    rest == [] || !IsRun(rest[0]) || RunValue(rest[0]) != v
  }

  lemma {:induction false} ChunksDenote(v: bool, bits: nat, rest: seq<Word>)
    requires Breaks(rest, v)
    ensures GroupLen(Chunks(v, bits) + rest, v) == |Chunks(v, bits)|
    ensures GroupCount(Chunks(v, bits)) == bits
  {
    var c := Chunks(v, bits);
    if bits == 0 {
      assert c + rest == rest;
    } else {
      ChunksDenote(v, bits / 0x4000, rest);
      assert (c + rest)[1..] == Chunks(v, bits / 0x4000) + rest;
      assert c[1..] == Chunks(v, bits / 0x4000);
    }
  }

  lemma ChunksAreFew(v: bool, bits: nat)
    requires bits < 0x1_0000_0000
    ensures |Chunks(v, bits)| <= 3
  {
    var middle := bits / 0x4000;
    var high := middle / 0x4000;
    assert high < 0x10 && |Chunks(v, high)| <= 1 + |Chunks(v, 0)|;
    assert |Chunks(v, middle)| <= 1 + |Chunks(v, high)|;
  }

  /** A flushed run decodes to its words when nothing after it extends it. */
  lemma ExpandFlush(v: bool, bits: nat, rest: seq<Word>)
    requires bits % VALUE_SIZE == 0
    requires Breaks(rest, v)
    ensures Expand(Flush(v, bits) + rest) == Repeat(v, bits / VALUE_SIZE) + Expand(rest)
    ensures bits < 0x1_0000_0000 && Decodable(rest) ==> Decodable(Flush(v, bits) + rest)
  {
    var f := Flush(v, bits);
    var c := f + rest;
    if bits / VALUE_SIZE > 1 {
      ChunksDenote(v, bits, rest);
      assert c[..|f|] == f && c[|f|..] == rest;
      if bits < 0x1_0000_0000 { ChunksAreFew(v, bits); }
    } else if bits > 0 {
      assert c[1..] == rest;
      assert Repeat(v, 1) == [Solid(v)];
    } else {
      assert c == rest;
    }
  }

  lemma FlushHead(v: bool, bits: nat)
    requires bits > 0
    ensures |Flush(v, bits)| > 0
    ensures Breaks(Flush(v, bits), !v)
  {}

  /** Encoding with a run pending never starts with a run of the other value:
      adjacent groups never share a value. */
  lemma {:induction false} EncodeHead(ws: seq<Word>, v: bool, bits: nat)
    requires WellFormed(ws)
    requires bits > 0
    ensures Breaks(Encode(ws, v, bits), !v)
    decreases |ws|
  {
    FlushHead(v, bits);
    if ws == [] || Payload(ws[0]) != Solid(v) {
    } else {
      EncodeHead(ws[1..], v, bits + VALUE_SIZE);
    }
  }

  // --------------------------------------------------------------------- the format

  /** `word` stands for bits of value `v` only. */
  predicate Is(word: Word, v: bool) {
    if IsRun(word) then RunValue(word) == v else Payload(word) == Solid(v)
  }

  /** Neighbours of one value are the digits of one run: no run is written in two parts. */
  ghost predicate Merged(c: seq<Word>) {
    forall i, j, v :: 0 <= i < |c| && i + 1 == j < |c| && Is(c[i], v) && Is(c[j], v) ==> IsRun(c[i]) && IsRun(c[j])
  }

  /** What a run of `n` equal words is written as: nothing for none, a literal for one, and for
      more the digits of their 14 * n bits to the base 2^14, least significant first. */
  lemma FlushForm(v: bool, n: nat)
    ensures n == 0 ==> Flush(v, VALUE_SIZE * n) == []
    ensures n == 1 ==> Flush(v, VALUE_SIZE * n) == [Solid(v)]
    ensures n >= 2 ==> var c := Flush(v, VALUE_SIZE * n);
      && |c| > 0 && Payload(c[|c| - 1]) > 0
      && forall i :: 0 <= i < |c| ==>
           IsRun(c[i]) && RunValue(c[i]) == v && Payload(c[i]) == VALUE_SIZE * n / Pow2(14 * i) % 0x4000
  {
    hide Pow2;
    if n >= 2 {
      assert VALUE_SIZE * n / VALUE_SIZE == n;
      ChunkDigits(v, VALUE_SIZE * n);
    }
  }

  lemma {:induction false} ChunkDigits(v: bool, bits: nat)
    ensures var c := Chunks(v, bits);
      && (bits > 0 ==> |c| > 0 && Payload(c[|c| - 1]) > 0)
      && forall i :: 0 <= i < |c| ==>
           IsRun(c[i]) && RunValue(c[i]) == v && Payload(c[i]) == bits / Pow2(14 * i) % 0x4000
  {
    hide Pow2, IsRun, RunValue, Payload;
    if bits == 0 {
    } else {
      var c, rest := Chunks(v, bits), Chunks(v, bits / 0x4000);
      ChunkDigits(v, bits / 0x4000);
      FirstChunk(v, bits);
      forall i | 0 <= i < |c|
        ensures IsRun(c[i]) && RunValue(c[i]) == v && Payload(c[i]) == bits / Pow2(14 * i) % 0x4000
      {
        if i > 0 {
          assert c[i] == rest[i - 1];
          NextDigit(bits, i);
        }
      }
    }
  }

  lemma FirstChunk(v: bool, bits: nat)
    requires bits > 0
    ensures var c := Chunks(v, bits);
      && c == [c[0]] + Chunks(v, bits / 0x4000) && IsRun(c[0]) && RunValue(c[0]) == v
      && Payload(c[0]) == bits / Pow2(0) % 0x4000 && (bits < 0x4000 ==> Payload(c[0]) > 0)
  {}

  lemma NextDigit(bits: nat, i: nat)
    requires i > 0
    ensures bits / 0x4000 / Pow2(14 * (i - 1)) == bits / Pow2(14 * i)
  {
    hide Pow2;
    Powers();
    PowAdd(14, 14 * (i - 1));
    DivTwice(bits, 0x4000, Pow2(14 * (i - 1)));
  }

  /** Compressing merges: the output has no two neighbours of one value but the digits of one
      run. */
  lemma {:induction false} EncodeMerges(ws: seq<Word>, v: bool, bits: nat)
    requires WellFormed(ws) && bits % VALUE_SIZE == 0
    ensures Merged(Encode(ws, v, bits))
    ensures bits > 0 ==> |Encode(ws, v, bits)| > 0 && Is(Encode(ws, v, bits)[0], v)
    decreases |ws|
  {
    hide Flush, IsRun, RunValue, Payload;
    FlushMerged(v, bits);
    if ws == [] {
    } else if Payload(ws[0]) == Solid(v) {
      EncodeMerges(ws[1..], v, bits + VALUE_SIZE);
    } else if Payload(ws[0]) == Solid(!v) {
      EncodeMerges(ws[1..], !v, VALUE_SIZE);
      MergedJoin(Flush(v, bits), v, Encode(ws[1..], !v, VALUE_SIZE));
    } else {
      EncodeMerges(ws[1..], v, 0);
      LiteralMerged(ws[0], Encode(ws[1..], v, 0));
      assert Flush(v, bits) + [ws[0]] + Encode(ws[1..], v, 0) == Flush(v, bits) + ([ws[0]] + Encode(ws[1..], v, 0));
      MergedJoin(Flush(v, bits), v, [ws[0]] + Encode(ws[1..], v, 0));
    }
  }

  lemma FlushMerged(v: bool, bits: nat)
    requires bits % VALUE_SIZE == 0
    ensures Merged(Flush(v, bits)) && forall i :: 0 <= i < |Flush(v, bits)| ==> Is(Flush(v, bits)[i], v)
    ensures bits > 0 ==> |Flush(v, bits)| > 0
  {
    hide Pow2;
    var n := bits / VALUE_SIZE;
    assert bits == VALUE_SIZE * n;
    FlushForm(v, n);
  }

  /** Words of value `v` in front of something that does not start with that value. */
  lemma MergedJoin(a: seq<Word>, v: bool, b: seq<Word>)
    requires Merged(a) && Merged(b) && forall i :: 0 <= i < |a| ==> Is(a[i], v)
    requires b == [] || !Is(b[0], v)
    ensures Merged(a + b)
  {
    hide IsRun, RunValue, Payload;
    OneValue(v);
    var c := a + b;
    forall i, j, u | 0 <= i < |c| && i + 1 == j < |c| && Is(c[i], u) && Is(c[j], u)
      ensures IsRun(c[i]) && IsRun(c[j])
    {
      if i >= |a| {
        assert c[i] == b[i - |a|] && c[j] == b[j - |a|];
      } else if j < |a| {
        assert c[i] == a[i] && c[j] == a[j];
      }
    }
  }

  lemma OneValue(v: bool)
    ensures forall word: Word :: !(Is(word, v) && Is(word, !v))
  {}

  lemma LiteralMerged(w: Word, rest: seq<Word>)
    requires w < 0x4000 && Payload(w) != Solid(true) && Payload(w) != Solid(false) && Merged(rest)
    ensures Merged([w] + rest) && !Is(w, true) && !Is(w, false)
  {
    var c := [w] + rest;
    assert forall i :: 0 < i < |c| ==> c[i] == rest[i - 1];
  }

  // ----------------------------------------------------------------- and back again

  /** `c` decodes to `ws`; within 32 bits it is decodable. */
  ghost predicate Decodes(c: seq<Word>, ws: seq<Word>) {
    && Expand(c) == ws
    && (VALUE_SIZE * |ws| < 0x1_0000_0000 ==> Decodable(c))
  }

  /** Decoding undoes encoding: the pending run comes first, then the words. */
  lemma {:induction false} ExpandEncode(ws: seq<Word>, v: bool, bits: nat)
    requires WellFormed(ws)
    requires bits % VALUE_SIZE == 0
    ensures Decodes(Encode(ws, v, bits), Repeat(v, bits / VALUE_SIZE) + ws)
    decreases |ws|
  {
    hide Expand, Decodable, Flush, Repeat, Decodes;
    if ws == [] {
      ExpandPending(v, bits);
    } else if Payload(ws[0]) == Solid(v) {
      ExpandEncode(ws[1..], v, bits + VALUE_SIZE);
      RepeatSnoc(v, bits / VALUE_SIZE, ws);
    } else if Payload(ws[0]) == Solid(!v) {
      ExpandEncode(ws[1..], !v, VALUE_SIZE);
      ExpandSwitch(ws, v, bits);
    } else {
      ExpandEncode(ws[1..], v, 0);
      ExpandLiteral(ws, v, bits);
    }
  }

  lemma ExpandPending(v: bool, bits: nat)
    requires bits % VALUE_SIZE == 0
    ensures Decodes(Flush(v, bits), Repeat(v, bits / VALUE_SIZE) + [])
  {
    ExpandFlush(v, bits, []);
    assert Flush(v, bits) + [] == Flush(v, bits);
  }

  lemma RepeatSnoc(v: bool, n: nat, ws: seq<Word>)
    requires ws != [] && ws[0] == Solid(v)
    ensures Repeat(v, n + 1) + ws[1..] == Repeat(v, n) + ws
  {
    assert Repeat(v, n + 1) == Repeat(v, n) + [Solid(v)];
    assert ws == [ws[0]] + ws[1..];
  }

  /** The step of `ExpandEncode` for a word that starts a run of the other value. */
  lemma ExpandSwitch(ws: seq<Word>, v: bool, bits: nat)
    requires WellFormed(ws) && ws != [] && ws[0] == Solid(!v) && bits % VALUE_SIZE == 0
    requires Decodes(Encode(ws[1..], !v, VALUE_SIZE), Repeat(!v, 1) + ws[1..])
    ensures Decodes(Flush(v, bits) + Encode(ws[1..], !v, VALUE_SIZE), Repeat(v, bits / VALUE_SIZE) + ws)
  {
    var rest := Encode(ws[1..], !v, VALUE_SIZE);
    EncodeHead(ws[1..], !v, VALUE_SIZE);
    ExpandFlush(v, bits, rest);
    RepeatSnoc(!v, 0, ws);
    assert Repeat(!v, 0) + ws == ws;
  }

  /** The step of `ExpandEncode` for a word that is copied as a literal. */
  lemma ExpandLiteral(ws: seq<Word>, v: bool, bits: nat)
    requires ws != [] && ws[0] < 0x4000 && bits % VALUE_SIZE == 0
    requires Decodes(Encode(ws[1..], v, 0), Repeat(v, 0) + ws[1..])
    ensures Decodes(Flush(v, bits) + [ws[0]] + Encode(ws[1..], v, 0), Repeat(v, bits / VALUE_SIZE) + ws)
  {
    hide Encode, Flush, Expand, Decodable, GroupLen, GroupCount;
    var rest := Encode(ws[1..], v, 0);
    var tail := [ws[0]] + rest;
    LiteralFirst(ws[0], rest);
    ExpandFlush(v, bits, tail);
    assert Flush(v, bits) + [ws[0]] + rest == Flush(v, bits) + tail;
    assert Repeat(v, 0) + ws[1..] == ws[1..];
    assert ws == [ws[0]] + ws[1..];
  }

  lemma LiteralFirst(w: Word, rest: seq<Word>)
    requires w < 0x4000
    ensures Expand([w] + rest) == [w] + Expand(rest) && Decodable([w] + rest) == Decodable(rest)
    ensures Breaks([w] + rest, true) && Breaks([w] + rest, false)
  {
    assert ([w] + rest)[1..] == rest;
  }

  /** Compressing and uncompressing gives back every word, and it does so
      exactly for the well-formed bitmaps. */
  lemma RoundTrip(ws: seq<Word>)
    ensures Expand(Compressed(ws)) == ws <==> WellFormed(ws)
    ensures WellFormed(ws) && VALUE_SIZE * |ws| < 0x1_0000_0000 ==> Decodable(Compressed(ws))
  {
    if WellFormed(ws) {
      ExpandEncode(ws, false, 0);
      assert Repeat(false, 0) + ws == ws;
    }
  }

  /** A word that is only a flag does not come back. */
  lemma FlagIsLost()
    ensures Expand(Compressed([0x4000])) != [0x4000]
  {
    hide Expand, Compressed;
    assert [0x4000][0] >= 0x4000;
    RoundTrip([0x4000]);
  }

  // -------------------------------------------------------------------- size

  lemma {:induction false} ChunksShort(v: bool, bits: nat)
    ensures |Chunks(v, bits)| <= bits
  {
    if bits == 0 {
    } else {
      ChunksShort(v, bits / 0x4000);
    }
  }

  lemma FlushShort(v: bool, bits: nat)
    requires bits % VALUE_SIZE == 0
    ensures |Flush(v, bits)| <= bits / VALUE_SIZE
  {
    if bits / VALUE_SIZE > 1 { ChunksShort(v, bits / 0x4000); }
  }

  /** The compressed form never has more words than the bitmap. */
  lemma {:induction false} EncodeShort(ws: seq<Word>, v: bool, bits: nat)
    requires bits % VALUE_SIZE == 0
    ensures |Encode(ws, v, bits)| <= bits / VALUE_SIZE + |ws|
    decreases |ws|
  {
    FlushShort(v, bits);
    if ws == [] {
    } else {
      if Payload(ws[0]) == Solid(v) {
        EncodeShort(ws[1..], v, bits + VALUE_SIZE);
      } else if Payload(ws[0]) == Solid(!v) {
        EncodeShort(ws[1..], !v, VALUE_SIZE);
      } else {
        EncodeShort(ws[1..], v, 0);
      }
    }
  }

  // -------------------------------------------------------------- complement

  /** `operator~` on one word of a compressed bitmap. */
  function FlipWord(w: Word): (r: Word) {
    if IsRun(w) then (if RunValue(w) then w - 0x4000 else w + 0x4000)
    else COUNT_MASK - Payload(w)
  }

  function FlipAll(c: seq<Word>): (r: seq<Word>)
    ensures |r| == |c|
    ensures forall i :: 0 <= i < |c| ==> r[i] == FlipWord(c[i])
  {
    seq(|c|, i requires 0 <= i < |c| => FlipWord(c[i]))
  }

  /** The complement of every payload bit of a word. */
  function Negated(ws: seq<Word>): (r: seq<Word>)
    requires WellFormed(ws)
    ensures |r| == |ws| && WellFormed(r)
    ensures forall i :: 0 <= i < |ws| ==> r[i] == COUNT_MASK - ws[i]
  {
    seq(|ws|, i requires 0 <= i < |ws| => COUNT_MASK - ws[i])
  }

  lemma {:induction false} FlipGroup(c: seq<Word>, v: bool)
    ensures GroupLen(FlipAll(c), !v) == GroupLen(c, v)
  {
    if c == [] {
    } else {
      FlipGroup(c[1..], v);
      assert FlipAll(c)[1..] == FlipAll(c[1..]);
    }
  }

  lemma {:induction false} FlipCount(c: seq<Word>, v: bool, g: nat)
    requires g <= GroupLen(c, v)
    ensures GroupCount(FlipAll(c)[..g]) == GroupCount(c[..g])
  {
    if g == 0 {
    } else {
      FlipCount(c[1..], v, g - 1);
      assert c[..g][1..] == c[1..][..g - 1];
      assert FlipAll(c)[..g][1..] == FlipAll(c[1..])[..g - 1];
    }
  }

  lemma NegatedConcat(a: seq<Word>, b: seq<Word>)
    requires WellFormed(a) && WellFormed(b)
    ensures WellFormed(a + b)
    ensures Negated(a + b) == Negated(a) + Negated(b)
  {
    var s := a + b;
    forall i | 0 <= i < |s|
      ensures s[i] < 0x4000
      ensures COUNT_MASK - s[i] == (Negated(a) + Negated(b))[i]
    {}
  }

  lemma FlipLiteral(w: Word)
    requires !IsRun(w)
    ensures !IsRun(FlipWord(w)) && Payload(FlipWord(w)) == COUNT_MASK - Payload(w)
  {}

  lemma NegatedCons(w: Word, ws: seq<Word>)
    requires w < 0x4000 && WellFormed(ws)
    ensures WellFormed([w] + ws)
    ensures Negated([w] + ws) == [COUNT_MASK - w] + Negated(ws)
  {
    NegatedConcat([w], ws);
  }

  lemma NegatedRepeat(v: bool, n: nat)
    ensures Negated(Repeat(v, n)) == Repeat(!v, n)
  {}

  /** Complementing the compressed form complements every payload bit. */
  lemma {:induction false} ExpandFlip(c: seq<Word>)
    ensures Expand(FlipAll(c)) == Negated(Expand(c))
    ensures Decodable(c) ==> Decodable(FlipAll(c))
    decreases |c|
  {
    if c == [] {
    } else if IsRun(c[0]) {
      ExpandFlip(c[GroupLen(c, RunValue(c[0]))..]);
      ExpandFlipRun(c);
    } else {
      ExpandFlip(c[1..]);
      ExpandFlipLiteral(c);
    }
  }

  lemma ExpandFlipRun(c: seq<Word>)
    requires c != [] && IsRun(c[0])
    requires var rest := c[GroupLen(c, RunValue(c[0]))..];
      Expand(FlipAll(rest)) == Negated(Expand(rest)) && (Decodable(rest) ==> Decodable(FlipAll(rest)))
    ensures Expand(FlipAll(c)) == Negated(Expand(c))
    ensures Decodable(c) ==> Decodable(FlipAll(c))
  {
    var f, v := FlipAll(c), RunValue(c[0]);
    var g := GroupLen(c, v);
    var n := GroupCount(c[..g]) / VALUE_SIZE;
    FlipGroup(c, v);
    FlipCount(c, v, GroupLen(c, v));
    assert f[g..] == FlipAll(c[g..]);
    NegatedConcat(Repeat(v, n), Expand(c[g..]));
    NegatedRepeat(v, n);
  }

  lemma ExpandFlipLiteral(c: seq<Word>)
    requires c != [] && !IsRun(c[0])
    requires Expand(FlipAll(c[1..])) == Negated(Expand(c[1..]))
    requires Decodable(c[1..]) ==> Decodable(FlipAll(c[1..]))
    ensures Expand(FlipAll(c)) == Negated(Expand(c))
    ensures Decodable(c) ==> Decodable(FlipAll(c))
  {
    hide GroupLen, GroupCount, Repeat;
    var f := FlipAll(c);
    var p, q, rest := Payload(c[0]), Payload(f[0]), Expand(c[1..]);
    assert q == COUNT_MASK - p by { FlipLiteral(c[0]); }
    assert f[1..] == FlipAll(c[1..]);
    calc {
      Expand(f);
      [q] + Expand(FlipAll(c[1..]));
      [COUNT_MASK - p] + Negated(rest);
      { NegatedCons(p, rest); }
      Negated([p] + rest);
      Negated(Expand(c));
    }
  }

  /** What `Negated` means bit by bit. */
  lemma NegatedBits(ws: seq<Word>, i: nat, b: nat)
    requires WellFormed(ws) && i < |ws| && b < VALUE_SIZE
    ensures BitAt(Negated(ws)[i], b) <==> !BitAt(ws[i], b)
  {
    Powers();
    ComplementBit(ws[i], 14, b);
  }
}
