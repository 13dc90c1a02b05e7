/** `Bitmap` as an object: conversion between its two forms and the operators,
    each tied to the words that the operands stand for. */
module Bitmaps {
  import opened Bits
  import opened BitmapCodec
  import opened BitmapLanes

  /** The number of words that hold `size` bits. */
  function WordCount(size: nat): (n: nat)
    ensures VALUE_SIZE * n >= size
    ensures size < VALUE_SIZE * n ==> VALUE_SIZE * n < size + VALUE_SIZE
  {
    (size + VALUE_SIZE - 1) / VALUE_SIZE
  }

  /** How an operator ends; the last two are the `logic_error`s it throws. */
  datatype Outcome = Done | SizeMismatch | Unsupported

  /** Decoding `c` into `ws` has read `i` words and produced `k`. */
  ghost predicate Cursor(c: seq<Word>, ws: seq<Word>, i: nat, k: nat) {
    i <= |c| && k <= |ws| && ws[k..] == Expand(c[i..]) && Decodable(c[i..])
  }

  lemma CursorStart(c: seq<Word>)
    requires Decodable(c)
    ensures Cursor(c, Expand(c), 0, 0)
  {
    assert c[0..] == c;
  }

  lemma CursorEnd(c: seq<Word>, ws: seq<Word>, k: nat)
    requires Cursor(c, ws, |c|, k)
    ensures k == |ws|
  {
    assert c[|c|..] == [];
  }

  lemma CursorLiteral(c: seq<Word>, ws: seq<Word>, i: nat, k: nat)
    requires Cursor(c, ws, i, k) && i < |c| && !IsRun(c[i])
    ensures k < |ws| && ws[k] == Payload(c[i])
    ensures Cursor(c, ws, i + 1, k + 1)
  {
    assert c[i..][1..] == c[i + 1..];
    SliceAfter(ws, k, [Payload(c[i])], Expand(c[i + 1..]));
  }

  /** A group of run words denotes `n` words and ends at `next`. */
  lemma CursorRun(c: seq<Word>, ws: seq<Word>, i: nat, k: nat) returns (next: nat, n: nat)
    requires Cursor(c, ws, i, k) && i < |c| && IsRun(c[i])
    ensures next == i + GroupLen(c[i..], RunValue(c[i])) && i < next <= |c|
    ensures GroupCount(c[i..next]) == VALUE_SIZE * n
    ensures k + n <= |ws| && forall j :: k <= j < k + n ==> ws[j] == Solid(RunValue(c[i]))
    ensures Cursor(c, ws, next, k + n)
  {
    var v := RunValue(c[i]);
    var g := GroupLen(c[i..], v);
    next := i + g;
    n := GroupCount(c[i..next]) / VALUE_SIZE;
    assert c[i..][..g] == c[i..next] && c[i..][g..] == c[next..];
    SliceAfter(ws, k, Repeat(v, n), Expand(c[next..]));
  }

  /** `ones` from `k` on tells the words behind `i`. */
  ghost predicate Marks(c: seq<Word>, ones: seq<bool>, i: nat, k: nat) {
    i <= |c| && k <= |ones| && ones[k..] == InOnes(c[i..])
  }

  lemma MarksStart(c: seq<Word>)
    ensures Marks(c, InOnes(c), 0, 0)
  {
    assert c[0..] == c;
  }

  lemma MarksLiteral(c: seq<Word>, ones: seq<bool>, i: nat, k: nat)
    requires Marks(c, ones, i, k) && i < |c| && !IsRun(c[i])
    ensures k < |ones| && !ones[k] && Marks(c, ones, i + 1, k + 1)
  {
    assert c[i..][1..] == c[i + 1..];
    SliceAfter(ones, k, [false], InOnes(c[i + 1..]));
  }

  lemma MarksRun(c: seq<Word>, ones: seq<bool>, i: nat, k: nat, next: nat, n: nat)
    requires Marks(c, ones, i, k) && i < |c| && IsRun(c[i])
    requires next == i + GroupLen(c[i..], RunValue(c[i])) <= |c| && GroupCount(c[i..next]) == VALUE_SIZE * n
    ensures k + n <= |ones| && Marks(c, ones, next, k + n)
    ensures forall j :: k <= j < k + n ==> ones[j] == RunValue(c[i])
  {
    hide GroupCount;
    var v := RunValue(c[i]);
    assert c[i..][..next - i] == c[i..next] && c[i..][next - i..] == c[next..];
    SliceAfter(ones, k, seq(n, _ => v), InOnes(c[next..]));
  }

  lemma SliceAfter<T>(ws: seq<T>, k: nat, head: seq<T>, tail: seq<T>)
    requires k <= |ws| && ws[k..] == head + tail
    ensures k + |head| <= |ws| && ws[k + |head|..] == tail
    ensures forall j :: k <= j < k + |head| ==> ws[j] == head[j - k]
  {
    assert ws[k..][|head|..] == tail;
    forall j | k <= j < k + |head| ensures ws[j] == head[j - k] {
      assert ws[k..][j - k] == head[j - k];
    }
  }

  /** One step of encoding after the output `out`. */
  lemma EncodeAt(ws: seq<Word>, i: nat, v: bool, bits: nat, out: seq<Word>)
    requires i < |ws|
    ensures out + Encode(ws[i..], v, bits) ==
      if Payload(ws[i]) == Solid(v) then out + Encode(ws[i + 1..], v, bits + VALUE_SIZE)
      else if Payload(ws[i]) == Solid(!v) then out + Flush(v, bits) + Encode(ws[i + 1..], !v, VALUE_SIZE)
      else out + Flush(v, bits) + [ws[i]] + Encode(ws[i + 1..], v, 0)
  {
    var f, w, rest := Flush(v, bits), [ws[i]], ws[i + 1..];
    assert ws[i..][1..] == rest;
    if Payload(ws[i]) == Solid(v) {
    } else if Payload(ws[i]) == Solid(!v) {
      Assoc(out, f, Encode(rest, !v, VALUE_SIZE));
    } else {
      Assoc(out, f + w, Encode(rest, v, 0));
      Assoc(out, f, w);
    }
  }

  lemma EncodeEnd(v: bool, bits: nat)
    ensures Encode([], v, bits) == Flush(v, bits)
  {}

  lemma Assoc(a: seq<Word>, b: seq<Word>, c: seq<Word>)
    ensures a + (b + c) == a + b + c
  {}

  lemma {:induction false} GroupCountBound(c: seq<Word>)
    ensures GroupCount(c) < Pow2(VALUE_SIZE * |c|)
  {
    if c == [] {
    } else {
      GroupCountBound(c[1..]);
      Powers();
      PowAdd(14, 14 * |c[1..]|);
    }
  }

  lemma {:induction false} GroupCountSnoc(c: seq<Word>, w: Word)
    ensures GroupCount(c + [w]) == GroupCount(c) + Shl(Payload(w), VALUE_SIZE * |c|)
  {
    if c == [] {
      assert c + [w] == [w];
    } else {
      assert (c + [w])[1..] == c[1..] + [w];
      GroupCountSnoc(c[1..], w);
      ShlAdd14(Payload(w), VALUE_SIZE * |c[1..]|);
    }
  }

  lemma ShlAdd14(w: nat, k: nat)
    ensures Shl(w, 14 + k) == 0x4000 * Shl(w, k)
  {
    Powers();
    ShlIsMul(w, 14 + k);
    ShlIsMul(w, k);
    PowAdd(14, k);
    assert w * (0x4000 * Pow2(k)) == 0x4000 * (w * Pow2(k));
  }

  lemma {:induction false} GroupCountPrefix(c: seq<Word>, k: nat)
    requires k <= |c|
    ensures GroupCount(c[..k]) <= GroupCount(c)
  {
    if k == 0 {
    } else {
      assert c[..k][1..] == c[1..][..k - 1];
      GroupCountPrefix(c[1..], k - 1);
    }
  }

  lemma {:induction false} GroupLenStep(c: seq<Word>, v: bool, k: nat)
    requires k <= GroupLen(c, v)
    ensures k < GroupLen(c, v) <==> k < |c| && IsRun(c[k]) && RunValue(c[k]) == v
  {
    if k == 0 {
    } else {
      GroupLenStep(c[1..], v, k - 1);
    }
  }

  /** One more digit: nothing is lost to the 32-bit shift, and Or is addition. */
  lemma JoinDigit(c: seq<Word>, k: nat)
    requires k < |c| && GroupCount(c) < 0x1_0000_0000
    ensures Or(Shl(Payload(c[k]), VALUE_SIZE * k) % 0x1_0000_0000, GroupCount(c[..k])) == GroupCount(c[..k + 1])
  {
    hide GroupCount, Or, Shl;
    GroupCountBound(c[..k]);
    OrDisjoint(GroupCount(c[..k]), Payload(c[k]), VALUE_SIZE * k);
    GroupCountSnoc(c[..k], c[k]);
    assert c[..k] + [c[k]] == c[..k + 1];
    GroupCountPrefix(c, k + 1);
    OrCommutes(GroupCount(c[..k]), Shl(Payload(c[k]), VALUE_SIZE * k));
  }

  lemma FirstDigit(c: seq<Word>, v: bool)
    requires c != [] && IsRun(c[0]) && v == RunValue(c[0]) && Decodable(c)
    ensures GroupCount(c[..1]) == Payload(c[0]) && 0 < GroupLen(c, v) <= |c|
    ensures GroupCount(c[..GroupLen(c, v)]) < 0x1_0000_0000
  {
    assert c[..1][1..] == [];
  }

  /** The digit loop shared by `uncompress`, `&=`, `|=` and `compressCross`: it
      joins the digits with 32-bit shifts and reads past the whole group. */
  method ReadRun(data: array<Word>, i: nat) returns (count: nat, next: nat)
    requires i < data.Length && IsRun(data[i])
    requires Decodable(data[..][i..])
    ensures next == i + GroupLen(data[..][i..], RunValue(data[i]))
    ensures count == GroupCount(data[..][i..next])
  {
    hide GroupCount, GroupLen, Or, Shl, Decodable;
    ghost var c := data[..][i..];
    var v := RunValue(data[i]);
    ghost var g := GroupLen(c, v);
    count := Payload(data[i]);
    next := i + 1;
    GroupLenStep(c, v, 0);
    FirstDigit(c, v);
    while next < data.Length && IsRun(data[next]) && v == RunValue(data[next])
      invariant i < next <= i + g
      invariant count == GroupCount(c[..next - i])
      decreases data.Length - next
    {
      var k := next - i;
      GroupLenStep(c, v, k);
      JoinDigit(c[..g], k);
      assert c[..g][..k] == c[..k] && c[..g][..k + 1] == c[..k + 1];
      count := Or(Shl(Payload(data[next]), VALUE_SIZE * k) % 0x1_0000_0000, count);
      next := next + 1;
    }
    GroupLenStep(c, v, next - i);
    assert c[..g] == data[..][i..next];
  }

  /** The aligned range `set`. */
  method SetRange(data: array<Word>, from: nat, count: nat, v: bool)
    requires from % VALUE_SIZE == 0 && count % VALUE_SIZE == 0
    requires (from + count) / VALUE_SIZE <= data.Length
    modifies data
    ensures forall i :: 0 <= i < data.Length ==>
      data[i] == if from / VALUE_SIZE <= i < (from + count) / VALUE_SIZE then Solid(v) else old(data[i])
  {
    if count == 0 {
      return;
    }
    var i := from / VALUE_SIZE;
    var to := (from + count) / VALUE_SIZE;
    while i < to
      invariant from / VALUE_SIZE <= i <= to
      invariant forall j :: 0 <= j < data.Length ==>
        data[j] == if from / VALUE_SIZE <= j < i then Solid(v) else old(data[j])
    {
      data[i] := Solid(v);
      i := i + 1;
    }
  }

  /** The aligned range `get`: some word of the range has (or lacks) a set bit. */
  method GetRange(data: array<Word>, from: nat, count: nat, v: bool) returns (found: bool)
    requires from % VALUE_SIZE == 0 && count % VALUE_SIZE == 0
    requires (from + count) / VALUE_SIZE <= data.Length
    ensures found <==> exists i :: from / VALUE_SIZE <= i < (from + count) / VALUE_SIZE
                                   && ((Payload(data[i]) != 0) == v)
  {
    if count == 0 {
      return false;
    }
    for i := from / VALUE_SIZE to (from + count) / VALUE_SIZE
      invariant forall j :: from / VALUE_SIZE <= j < i ==> (Payload(data[j]) != 0) != v
    {
      if (Payload(data[i]) != 0) == v {
        return true;
      }
    }
    return false;
  }

  /** The loop of `uncompress`. */
  method DecodeInto(c: array<Word>, words: array<Word>)
    requires c != words && Decodable(c[..]) && words.Length == |Expand(c[..])|
    modifies words
    ensures words[..] == Expand(c[..])
  {
    hide Expand, Decodable, GroupLen, GroupCount, And, Or;
    ghost var ws := Expand(c[..]);
    CursorStart(c[..]);
    var pos: nat, i: nat := 0, 0;
    ghost var k := 0;
    while i < c.Length
      invariant pos == VALUE_SIZE * k
      invariant Cursor(c[..], ws, i, k)
      invariant forall j :: 0 <= j < k ==> words[j] == ws[j]
    {
      if IsRun(c[i]) {
        ghost var end, n := CursorRun(c[..], ws, i, k);
        var count, next := ReadRun(c, i);
        SetRange(words, pos, count, RunValue(c[i]));
        pos, i := pos + count, next;
        k := k + n;
      } else {
        CursorLiteral(c[..], ws, i, k);
        words[pos / VALUE_SIZE] := Payload(c[i]);
        pos, i := pos + VALUE_SIZE, i + 1;
        k := k + 1;
      }
    }
    CursorEnd(c[..], ws, k);
  }

  /** The loop of `&=` over a compressed right operand. */
  method AndRuns(words: array<Word>, c: array<Word>)
    requires c != words && Decodable(c[..]) && words.Length == |Expand(c[..])|
    modifies words
    ensures words[..] == AndedAll(old(words[..]), Expand(c[..]), InOnes(c[..]))
  {
    hide Expand, InOnes, Marks, Decodable, GroupLen, GroupCount, And, Or;
    ghost var ws, was, ones := Expand(c[..]), words[..], InOnes(c[..]);
    CursorStart(c[..]);
    MarksStart(c[..]);
    var pos: nat, i: nat := 0, 0;
    ghost var k := 0;
    while i < c.Length
      invariant pos == VALUE_SIZE * k
      invariant Cursor(c[..], ws, i, k)
      invariant Marks(c[..], ones, i, k)
      invariant forall j :: 0 <= j < k ==> words[j] == Anded(was[j], ws[j], ones[j])
      invariant forall j :: k <= j < words.Length ==> words[j] == was[j]
    {
      if IsRun(c[i]) {
        ghost var end, n := CursorRun(c[..], ws, i, k);
        MarksRun(c[..], ones, i, k, end, n);
        var count, next := ReadRun(c, i);
        forall j | k <= j < k + n ensures And(was[j], Solid(false)) == 0 {
          SolidAndOr(was[j]);
        }
        if !RunValue(c[i]) {
          SetRange(words, pos, count, false);
        }
        pos, i := pos + count, next;
        k := k + n;
      } else {
        CursorLiteral(c[..], ws, i, k);
        MarksLiteral(c[..], ones, i, k);
        words[pos / VALUE_SIZE] := And(words[pos / VALUE_SIZE], Payload(c[i]));
        pos, i := pos + VALUE_SIZE, i + 1;
        k := k + 1;
      }
    }
    CursorEnd(c[..], ws, k);
  }

  /** The payload bits of each word. */
  ghost function Payloads(ws: seq<Word>): (r: seq<Word>)
    ensures |r| == |ws| && forall j :: 0 <= j < |ws| ==> r[j] == Payload(ws[j])
  {
    seq(|ws|, j requires 0 <= j < |ws| => Payload(ws[j]))
  }

  ghost function AndedAll(was: seq<Word>, ws: seq<Word>, ones: seq<bool>): (r: seq<Word>)
    requires |was| == |ws| == |ones|
    ensures |r| == |was| && forall j :: 0 <= j < |r| ==> r[j] == Anded(was[j], ws[j], ones[j])
  {
    seq(|was|, j requires 0 <= j < |was| => Anded(was[j], ws[j], ones[j]))
  }

  ghost function OredAll(was: seq<Word>, ws: seq<Word>, ones: seq<bool>): (r: seq<Word>)
    requires |was| == |ws| == |ones|
    ensures |r| == |was| && forall j :: 0 <= j < |r| ==> r[j] == Ored(was[j], ws[j], ones[j])
  {
    seq(|was|, j requires 0 <= j < |was| => Ored(was[j], ws[j], ones[j]))
  }

  /** The payload bits follow `&` whatever the flags do, and so do words without flags. */
  lemma AndedPayloads(was: seq<Word>, c: seq<Word>)
    requires |was| == |Expand(c)|
    ensures var now, ws := AndedAll(was, Expand(c), InOnes(c)), Expand(c);
      Payloads(now) == AndWords(was, ws) && (WellFormed(was) ==> now == AndWords(was, ws))
  {
    hide And, Anded, Expand, InOnes;
    var ws, ones := Expand(c), InOnes(c);
    forall j | 0 <= j < |ws|
      ensures var now := Anded(was[j], ws[j], ones[j]);
        Payload(now) == And(was[j], ws[j]) && (was[j] < 0x4000 ==> now == And(was[j], ws[j]))
    {
      AndedPayload(was[j], ws[j], ones[j]);
    }
  }

  lemma OredPayloads(was: seq<Word>, c: seq<Word>)
    requires |was| == |Expand(c)|
    ensures var now, ws := OredAll(was, Expand(c), InOnes(c)), Expand(c);
      Payloads(now) == OrWords(Payloads(was), ws) && (WellFormed(was) ==> now == OrWords(was, ws))
  {
    hide Or, Ored, Expand, InOnes;
    var ws, ones := Expand(c), InOnes(c);
    forall j | 0 <= j < |ws|
      ensures var now := Ored(was[j], ws[j], ones[j]);
        Payload(now) == Or(Payload(was[j]), ws[j]) && (was[j] < 0x4000 ==> now == Or(was[j], ws[j]))
    {
      OredPayload(was[j], ws[j], ones[j]);
    }
  }

  /** The loop of `|=` over a compressed right operand. */
  method OrRuns(words: array<Word>, c: array<Word>)
    requires c != words && Decodable(c[..]) && words.Length == |Expand(c[..])|
    modifies words
    ensures words[..] == OredAll(old(words[..]), Expand(c[..]), InOnes(c[..]))
  {
    hide Expand, InOnes, Marks, Decodable, GroupLen, GroupCount, And, Or, OrWord;
    ghost var ws, was, ones := Expand(c[..]), words[..], InOnes(c[..]);
    CursorStart(c[..]);
    MarksStart(c[..]);
    var pos: nat, i: nat := 0, 0;
    ghost var k := 0;
    while i < c.Length
      invariant pos == VALUE_SIZE * k
      invariant Cursor(c[..], ws, i, k)
      invariant Marks(c[..], ones, i, k)
      invariant forall j :: 0 <= j < k ==> words[j] == Ored(was[j], ws[j], ones[j])
      invariant forall j :: k <= j < words.Length ==> words[j] == was[j]
    {
      if IsRun(c[i]) {
        ghost var end, n := CursorRun(c[..], ws, i, k);
        MarksRun(c[..], ones, i, k, end, n);
        var count, next := ReadRun(c, i);
        forall j | k <= j < k + n ensures OrWord(was[j], Solid(false)) == was[j] {
          SolidAndOr(was[j]);
        }
        if RunValue(c[i]) {
          SetRange(words, pos, count, true);
        }
        pos, i := pos + count, next;
        k := k + n;
      } else {
        CursorLiteral(c[..], ws, i, k);
        MarksLiteral(c[..], ones, i, k);
        words[pos / VALUE_SIZE] := OrWord(words[pos / VALUE_SIZE], Payload(c[i]));
        pos, i := pos + VALUE_SIZE, i + 1;
        k := k + 1;
      }
    }
    CursorEnd(c[..], ws, k);
  }

  /** `compressCross`. */
  method CrossRuns(words: array<Word>, c: array<Word>) returns (found: bool)
    requires Decodable(c[..]) && |Expand(c[..])| <= words.Length
    ensures found <==> Meets(words[..], Expand(c[..]))
  {
    hide Expand, Decodable, GroupLen, GroupCount, And, Or;
    ghost var ws := Expand(c[..]);
    CursorStart(c[..]);
    var pos: nat, i: nat := 0, 0;
    ghost var k := 0;
    while i < c.Length
      invariant pos == VALUE_SIZE * k
      invariant Cursor(c[..], ws, i, k)
      invariant forall j :: 0 <= j < k ==> And(words[j], ws[j]) == 0
    {
      if IsRun(c[i]) {
        ghost var end, n := CursorRun(c[..], ws, i, k);
        var count, next := ReadRun(c, i);
        forall j | k <= j < k + n ensures And(words[j], ws[j]) == if RunValue(c[i]) then Payload(words[j]) else 0 {
          SolidAndOr(words[j]);
        }
        if RunValue(c[i]) {
          var hit := GetRange(words, pos, count, true);
          if hit {
            ghost var j :| k <= j < k + n && Payload(words[j]) != 0;
            assert And(words[..][j], ws[j]) != 0;
            return true;
          }
        }
        pos, i := pos + count, next;
        k := k + n;
      } else {
        CursorLiteral(c[..], ws, i, k);
        if And(words[pos / VALUE_SIZE], Payload(c[i])) != 0 {
          assert And(words[..][k], ws[k]) != 0;
          return true;
        }
        pos, i := pos + VALUE_SIZE, i + 1;
        k := k + 1;
      }
    }
    CursorEnd(c[..], ws, k);
    return false;
  }

  /** The `i`-th 64-bit word of the buffer. */
  function Load(data: array<Word>, i: nat): (x: nat)
    requires U64_DIV_BASE * i + 3 < data.Length
    reads data
  {
    Pack(data[4 * i], data[4 * i + 1], data[4 * i + 2], data[4 * i + 3])
  }

  method Store(data: array<Word>, i: nat, x: nat)
    requires U64_DIV_BASE * i + 3 < data.Length
    modifies data
    ensures forall j :: 0 <= j < data.Length ==>
      data[j] == if 4 * i <= j < 4 * i + 4 then Lane(x, j - 4 * i) else old(data[j])
  {
    data[4 * i] := Lane(x, 0);
    data[4 * i + 1] := Lane(x, 1);
    data[4 * i + 2] := Lane(x, 2);
    data[4 * i + 3] := Lane(x, 3);
  }

  /** One step of the four-word loop of `&=`. */
  method AndLane(a: array<Word>, b: array<Word>, i: nat)
    requires U64_DIV_BASE * i + 3 < a.Length && a.Length == b.Length
    modifies a
    ensures forall j :: 0 <= j < a.Length ==>
      a[j] == if 4 * i <= j < 4 * i + 4 then And(old(a[j]), old(b[j])) else old(a[j])
  {
    hide Pack, Lane, And, Or, OrWord;
    PackAnd(a[4 * i], a[4 * i + 1], a[4 * i + 2], a[4 * i + 3], b[4 * i], b[4 * i + 1], b[4 * i + 2], b[4 * i + 3]);
    LanesOfPack(And(a[4 * i], b[4 * i]), And(a[4 * i + 1], b[4 * i + 1]),
                And(a[4 * i + 2], b[4 * i + 2]), And(a[4 * i + 3], b[4 * i + 3]));
    Store(a, i, And(Load(a, i), Load(b, i)));
  }

  /** One step of the four-word loop of `|=`. */
  method OrLane(a: array<Word>, b: array<Word>, i: nat)
    requires U64_DIV_BASE * i + 3 < a.Length && a.Length == b.Length
    modifies a
    ensures forall j :: 0 <= j < a.Length ==>
      a[j] == if 4 * i <= j < 4 * i + 4 then Or(old(a[j]), old(b[j])) else old(a[j])
  {
    hide Pack, Lane, And, Or, OrWord;
    PackOr(a[4 * i], a[4 * i + 1], a[4 * i + 2], a[4 * i + 3], b[4 * i], b[4 * i + 1], b[4 * i + 2], b[4 * i + 3]);
    LanesOfPack(OrWord(a[4 * i], b[4 * i]), OrWord(a[4 * i + 1], b[4 * i + 1]),
                OrWord(a[4 * i + 2], b[4 * i + 2]), OrWord(a[4 * i + 3], b[4 * i + 3]));
    Store(a, i, Or(Load(a, i), Load(b, i)));
  }

  /** The uncompressed branch of `&=`: four words at a time, then the rest. */
  method AndAll(a: array<Word>, b: array<Word>, lanes: nat)
    requires a.Length == b.Length && U64_DIV_BASE * lanes <= a.Length
    modifies a
    ensures a[..] == AndWords(old(a[..]), old(b[..]))
  {
    for i := 0 to lanes
      invariant forall j :: 0 <= j < a.Length ==>
        a[j] == if j < U64_DIV_BASE * i then And(old(a[j]), old(b[j])) else old(a[j])
      invariant forall j :: U64_DIV_BASE * i <= j < b.Length ==> b[j] == old(b[j])
    {
      AndLane(a, b, i);
    }
    for i := U64_DIV_BASE * lanes to a.Length
      invariant forall j :: 0 <= j < a.Length ==> a[j] == if j < i then And(old(a[j]), old(b[j])) else old(a[j])
      invariant forall j :: i <= j < b.Length ==> b[j] == old(b[j])
    {
      a[i] := And(a[i], b[i]);
    }
  }

  /** The uncompressed branch of `|=`. */
  method OrAll(a: array<Word>, b: array<Word>, lanes: nat)
    requires a.Length == b.Length && U64_DIV_BASE * lanes <= a.Length
    modifies a
    ensures a[..] == OrWords(old(a[..]), old(b[..]))
  {
    for i := 0 to lanes
      invariant forall j :: 0 <= j < a.Length ==>
        a[j] == if j < U64_DIV_BASE * i then Or(old(a[j]), old(b[j])) else old(a[j])
      invariant forall j :: U64_DIV_BASE * i <= j < b.Length ==> b[j] == old(b[j])
    {
      OrLane(a, b, i);
    }
    for i := U64_DIV_BASE * lanes to a.Length
      invariant forall j :: 0 <= j < a.Length ==> a[j] == if j < i then Or(old(a[j]), old(b[j])) else old(a[j])
      invariant forall j :: i <= j < b.Length ==> b[j] == old(b[j])
    {
      a[i] := OrWord(a[i], b[i]);
    }
  }

  /** What the four-word test of `normalCross` finds. */
  lemma LaneMeets(a: array<Word>, b: array<Word>, i: nat)
    requires U64_DIV_BASE * i + 3 < a.Length && a.Length <= b.Length
    ensures Load(a, i) != 0 && And(Load(a, i), Load(b, i)) != 0 <==>
      exists j :: 4 * i <= j < 4 * i + 4 && And(a[j], b[j]) != 0
  {
    hide And, Pack;
    PackAnd(a[4 * i], a[4 * i + 1], a[4 * i + 2], a[4 * i + 3], b[4 * i], b[4 * i + 1], b[4 * i + 2], b[4 * i + 3]);
    PackIsZero(And(a[4 * i], b[4 * i]), And(a[4 * i + 1], b[4 * i + 1]),
               And(a[4 * i + 2], b[4 * i + 2]), And(a[4 * i + 3], b[4 * i + 3]));
  }

  /** `normalCross`. */
  method CrossAll(a: array<Word>, b: array<Word>, lanes: nat) returns (found: bool)
    requires a.Length <= b.Length && U64_DIV_BASE * lanes <= a.Length
    ensures found <==> Meets(a[..], b[..])
  {
    hide And, Load, Pack;
    for i := 0 to lanes
      invariant forall j :: 0 <= j < U64_DIV_BASE * i ==> And(a[j], b[j]) == 0
    {
      LaneMeets(a, b, i);
      if Load(a, i) != 0 && And(Load(a, i), Load(b, i)) != 0 {
        ghost var j :| 4 * i <= j < 4 * i + 4 && And(a[j], b[j]) != 0;
        assert And(a[..][j], b[..][j]) != 0;
        return true;
      }
    }
    for i := U64_DIV_BASE * lanes to a.Length
      invariant forall j :: 0 <= j < i ==> And(a[j], b[j]) == 0
    {
      if And(a[i], b[i]) != 0 {
        assert And(a[..][i], b[..][i]) != 0;
        return true;
      }
    }
    return false;
  }

  class Bitmap {
    var compressed: bool
    var size: nat
    var data: array<Word>

    ghost predicate Valid()
      reads this, data
    {
      && VALUE_SIZE * WordCount(size) < 0x1_0000_0000
      && if compressed then Decodable(data[..]) && |Expand(data[..])| == WordCount(size)
         else data.Length == WordCount(size)
    }

    /** The uncompressed words this bitmap stands for. */
    ghost function Decoded(): (ws: seq<Word>)
      requires Valid()
      reads this, data
      ensures |ws| == WordCount(size)
    {
      if compressed then Expand(data[..]) else data[..]
    }

    /** The public constructor: every byte of the words is `def`. */
    constructor (size: nat, def: nat)
      requires VALUE_SIZE * WordCount(size) < 0x1_0000_0000
      requires def < 0x100
      ensures Valid() && !compressed && this.size == size && fresh(data)
      ensures forall i :: 0 <= i < data.Length ==> data[i] == 0x101 * def
    {
      compressed := false;
      this.size := size;
      data := new Word[WordCount(size)](_ => 0x101 * def);
    }

    constructor FromWords(compressed: bool, size: nat, words: seq<Word>)
      ensures this.compressed == compressed && this.size == size
      ensures fresh(data) && data[..] == words
    {
      this.compressed := compressed;
      this.size := size;
      data := new Word[|words|](i requires 0 <= i < |words| => words[i]);
    }

    /** Writes the digits of a pending run into the scratch buffer. */
    static method StoreChunks(buffer: array<Word>, at: nat, v: bool, bits: nat) returns (next: nat)
      requires at + |Chunks(v, bits)| <= buffer.Length
      modifies buffer
      ensures next == at + |Chunks(v, bits)|
      ensures buffer[..next] == old(buffer[..at]) + Chunks(v, bits)
    {
      next := at;
      var rest := bits;
      assert buffer[..at] + Chunks(v, rest) == old(buffer[..at]) + Chunks(v, bits);
      while rest > 0
        invariant at <= next && next + |Chunks(v, rest)| == at + |Chunks(v, bits)|
        invariant buffer[..next] + Chunks(v, rest) == old(buffer[..at]) + Chunks(v, bits)
        decreases rest
      {
        ghost var before := buffer[..next];
        buffer[next] := RunWord(v, rest % 0x4000);
        next := next + 1;
        assert buffer[..next] == before + [RunWord(v, rest % 0x4000)];
        rest := rest / 0x4000;
      }
    }

    /** Writes what is pending: `Flush`. */
    static method StoreFlush(buffer: array<Word>, at: nat, v: bool, bits: nat) returns (next: nat)
      requires at + |Flush(v, bits)| <= buffer.Length
      modifies buffer
      ensures next == at + |Flush(v, bits)|
      ensures buffer[..next] == old(buffer[..at]) + Flush(v, bits)
    {
      next := at;
      if bits / VALUE_SIZE > 1 {
        next := StoreChunks(buffer, at, v, bits);
      } else if bits > 0 {
        buffer[next] := Solid(v);
        next := next + 1;
      }
    }

    /** The loop of `compress`.  The scratch buffer has as many words as the
        bitmap, and every write stays inside it. */
    method EncodeInto(buffer: array<Word>) returns (dst: nat)
      requires buffer != data && buffer.Length == data.Length
      modifies buffer
      ensures dst <= buffer.Length && buffer[..dst] == Compressed(data[..])
    {
      hide Encode, Flush, Popcount, Payload, Solid;
      ghost var ws := data[..];
      var value, count: nat := false, 0;
      dst := 0;
      assert ws[0..] == ws;
      for i := 0 to data.Length
        invariant count % VALUE_SIZE == 0
        invariant dst + count / VALUE_SIZE <= i
        invariant buffer[..dst] + Encode(ws[i..], value, count) == Compressed(ws)
      {
        var cur := data[i];
        var c := Popcount(Payload(cur));
        PopcountOfPayload(cur);
        EncodeAt(ws, i, value, count, buffer[..dst]);
        if (c == 0 && !value) || (c == VALUE_SIZE && value) {
          count := count + VALUE_SIZE;
          continue;
        }
        FlushShort(value, count);
        dst := StoreFlush(buffer, dst, value, count);
        if c == 0 || c == VALUE_SIZE {
          value := c == VALUE_SIZE;
          count := VALUE_SIZE;
        } else {
          ghost var before := buffer[..dst];
          buffer[dst] := cur;
          dst := dst + 1;
          assert buffer[..dst] == before + [cur];
          count := 0;
        }
      }
      FlushShort(value, count);
      assert ws[data.Length..] == [];
      EncodeEnd(value, count);
      dst := StoreFlush(buffer, dst, value, count);
    }

    /** `compress`. */
    method Compress() returns (b: Bitmap)
      requires Valid()
      ensures fresh(b) && fresh(b.data) && b.compressed && b.size == size
      ensures compressed ==> b.data[..] == data[..]
      ensures !compressed ==> b.data[..] == Compressed(data[..])
      ensures (compressed || WellFormed(data[..])) ==> b.Valid() && b.Decoded() == Decoded()
    {
      if compressed {
        b := new Bitmap.FromWords(true, size, data[..]);
        return;
      }
      RoundTrip(data[..]);
      var buffer := new Word[data.Length];
      var dst := EncodeInto(buffer);
      b := new Bitmap.FromWords(true, size, buffer[..dst]);
    }

    /** `uncompress`. */
    method Uncompress() returns (b: Bitmap)
      requires Valid()
      ensures fresh(b) && fresh(b.data) && b.Valid() && !b.compressed && b.size == size
      ensures b.data[..] == Decoded()
    {
      if !compressed {
        b := new Bitmap.FromWords(false, size, data[..]);
        return;
      }
      b := new Bitmap(size, 0);
      DecodeInto(data, b.data);
    }

    /** `operator&=`: whatever the form of `b`, the result is the And with the
        words `b` stands for. */
    method AndAssign(b: Bitmap) returns (outcome: Outcome)
      requires Valid() && b.Valid() && (b == this || b.data != data)
      modifies data
      ensures data == old(data) && compressed == old(compressed) && size == old(size)
      ensures outcome == if size != b.size then SizeMismatch else if compressed then Unsupported else Done
      ensures outcome == Done && (!b.compressed || WellFormed(old(data[..]))) ==>
        data[..] == AndWords(old(data[..]), old(b.Decoded()))
      ensures outcome == Done && b.compressed ==>
        && data[..] == AndedAll(old(data[..]), old(b.Decoded()), InOnes(old(b.data[..])))
        && Payloads(data[..]) == AndWords(old(data[..]), old(b.Decoded()))
      ensures outcome != Done ==> data[..] == old(data[..])
    {
      if size != b.size {
        return SizeMismatch;
      }
      if !compressed && !b.compressed {
        AndAll(data, b.data, size / U64_VALUE_SIZE);
      } else if compressed != b.compressed {
        if compressed {
          return Unsupported;
        }
        AndedPayloads(data[..], b.data[..]);
        AndRuns(data, b.data);
      } else {
        return Unsupported;
      }
      return Done;
    }

    /** `operator|=`. */
    method OrAssign(b: Bitmap) returns (outcome: Outcome)
      requires Valid() && b.Valid() && (b == this || b.data != data)
      modifies data
      ensures data == old(data) && compressed == old(compressed) && size == old(size)
      ensures outcome == if size != b.size then SizeMismatch else if compressed then Unsupported else Done
      ensures outcome == Done && (!b.compressed || WellFormed(old(data[..]))) ==>
        data[..] == OrWords(old(data[..]), old(b.Decoded()))
      ensures outcome == Done && b.compressed ==>
        && data[..] == OredAll(old(data[..]), old(b.Decoded()), InOnes(old(b.data[..])))
        && Payloads(data[..]) == OrWords(Payloads(old(data[..])), old(b.Decoded()))
      ensures outcome != Done ==> data[..] == old(data[..])
    {
      if size != b.size {
        return SizeMismatch;
      }
      if !compressed && !b.compressed {
        OrAll(data, b.data, size / U64_VALUE_SIZE);
      } else if compressed != b.compressed {
        if compressed {
          return Unsupported;
        }
        OredPayloads(data[..], b.data[..]);
        OrRuns(data, b.data);
      } else {
        return Unsupported;
      }
      return Done;
    }

    /** `cross`: a common bit, for either form of `b`. */
    method Cross(b: Bitmap) returns (found: bool)
      requires Valid() && b.Valid()
      requires !compressed ==>
        if b.compressed then WordCount(b.size) <= WordCount(size) else WordCount(size) <= WordCount(b.size)
      ensures found <==> !compressed && Meets(data[..], b.Decoded())
    {
      if !compressed && b.compressed {
        found := CrossRuns(data, b.data);
      } else if !compressed && !b.compressed {
        found := CrossAll(data, b.data, size / U64_VALUE_SIZE);
      } else {
        found := false;
      }
    }

    /** `operator~`.  The compressed form is complemented on its payload; the
        uncompressed one on all sixteen bits, flags included. */
    method Complement()
      requires Valid()
      modifies data
      ensures data == old(data) && compressed == old(compressed) && size == old(size)
      ensures compressed ==> data[..] == FlipAll(old(data[..])) && Valid() && Decoded() == Negated(old(Decoded()))
      ensures !compressed ==> forall i :: 0 <= i < data.Length ==> data[i] == 0xFFFF - old(data[i])
    {
      if !compressed {
        var lanes := size / U64_VALUE_SIZE;
        for i := 0 to U64_DIV_BASE * lanes
          invariant forall j :: 0 <= j < data.Length ==>
            data[j] == if j < i then 0xFFFF - old(data[j]) else old(data[j])
        {
          data[i] := 0xFFFF - data[i];
        }
        for i := U64_DIV_BASE * lanes to data.Length
          invariant forall j :: 0 <= j < data.Length ==>
            data[j] == if j < i then 0xFFFF - old(data[j]) else old(data[j])
        {
          data[i] := 0xFFFF - data[i];
        }
      } else {
        ExpandFlip(data[..]);
        for i := 0 to data.Length
          invariant forall j :: 0 <= j < data.Length ==>
            data[j] == if j < i then FlipWord(old(data[j])) else old(data[j])
        {
          data[i] := FlipWord(data[i]);
        }
        assert data[..] == FlipAll(old(data[..]));
      }
    }
  }
}
