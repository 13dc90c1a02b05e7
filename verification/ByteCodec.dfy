/** How typed values become bytes: base-128 varints, ZigZag, fixed width in either byte
    order, and strings with a length prefix. */
module ByteCodec {
  import opened Bits
  import opened ByteTapes

  /** A value and the bytes used up, or too few bytes and how many were consumed finding out. */
  datatype Parsed<T> = Parsed(value: T, used: nat) | Short(used: nat)

  // ---------------------------------------------------------------- varints

  /** Seven bits per byte, least significant first, the high bit set on all but the last. */
  function VarBytes(v: nat): (bytes: seq<Byte>)
    ensures |bytes| >= 1
  {
    if v < 0x80 then [v] else [v % 0x80 + 0x80] + VarBytes(v / 0x80)
  }

  /** The source's reading loop from shift `i` on, in words of `width` bits. */
  function ReadVar(input: seq<Byte>, width: nat, i: nat, result: nat): (p: Parsed<nat>)
    decreases |input|
  {
    if i >= width then Parsed(result, 0)
    else if input == [] then Short(0)
    else
      var next := Or(result, Shl(And(input[0], 0x7F), i) % Pow2(width));
      if input[0] < 0x80 then Parsed(next, 1)
      else
        match ReadVar(input[1..], width, i + 7, next)
        case Parsed(v, used) => Parsed(v, used + 1)
        case Short(used) => Short(used + 1)
  }

  /** The bytes of a varint: groups of seven bits, the least significant one first, the top
      bit set in all but the last; and no last group of zeros but for the number 0. */
  lemma {:induction false} VarByte(v: nat, i: nat)
    requires i < |VarBytes(v)|
    ensures VarBytes(v)[i] == v / Pow2(7 * i) % 0x80 + (if i < |VarBytes(v)| - 1 then 0x80 else 0)
    ensures v > 0 ==> v / Pow2(7 * (|VarBytes(v)| - 1)) > 0
    ensures v / Pow2(7 * |VarBytes(v)|) == 0
    decreases v
  {
    hide Pow2;
    var n := |VarBytes(v)|;
    OneGroupOnly(v);
    if v < 0x80 {
    } else {
      VarByte(v / 0x80, if i == 0 then 0 else i - 1);
      SevenMore(v, n - 1);
      SevenMore(v, n);
      if i > 0 {
        SevenMore(v, i);
      }
    }
  }

  lemma OneGroupOnly(v: nat)
    ensures v / Pow2(0) == v && (v < 0x80 ==> v / Pow2(7) == 0)
  {
    Powers();
  }

  lemma SevenMore(v: nat, i: nat)
    requires i > 0
    ensures v / 0x80 / Pow2(7 * (i - 1)) == v / Pow2(7 * i)
  {
    Powers();
    PowAdd(7, 7 * (i - 1));
    DivTwice(v, 0x80, Pow2(7 * (i - 1)));
  }

  /** The number that seven-bit groups spell, the least significant one first. */
  function Groups(bytes: seq<Byte>): nat {
    if bytes == [] then 0 else bytes[0] % 0x80 + 0x80 * Groups(bytes[1..])
  }

  /** How far a read from any bytes goes: up to the first byte without the top bit, or as many
      as the word has room for; the data runs out exactly when it ends before that. */
  lemma {:induction false} ReadVarStops(input: seq<Byte>, width: nat, i: nat, result: nat)
    ensures var p := ReadVar(input, width, i, result);
      && p.used <= |input|
      && (forall j :: 0 <= j < p.used - 1 ==> input[j] >= 0x80)
      && (p.used > 0 ==> i + 7 * (p.used - 1) < width)
      && (p.Short? ==> p.used == |input| && i + 7 * p.used < width && forall j :: 0 <= j < |input| ==> input[j] >= 0x80)
      && (p.Parsed? ==> i + 7 * p.used >= width || (p.used > 0 && input[p.used - 1] < 0x80))
    decreases |input|
  {
    hide Or, Shl, And, Pow2;
    if i >= width || input == [] {
    } else if input[0] >= 0x80 {
      var next := Or(result, Shl(And(input[0], 0x7F), i) % Pow2(width));
      ReadVarStops(input[1..], width, i + 7, next);
      assert forall j :: 0 < j < |input| ==> input[j] == input[1..][j - 1];
    }
  }

  /** What it reads: the number that the groups spell, cut to the word. */
  lemma {:induction false} ReadVarValue(input: seq<Byte>, width: nat, i: nat, result: nat)
    requires result < Pow2(i) && i < width
    ensures var p := ReadVar(input, width, i, result);
      p.Parsed? ==> p.used <= |input| && p.value == result + Groups(input[..p.used]) * Pow2(i) % Pow2(width)
    decreases |input|
  {
    hide Or, Shl, And, Pow2;
    ReadVarStops(input, width, i, result);
    if input == [] {
    } else {
      var b, rest := input[0], input[1..];
      var next := Or(result, Shl(And(b, 0x7F), i) % Pow2(width));
      LowSeven(b);
      OneGroupCut(result, b % 0x80, i, width);
      if b < 0x80 || i + 7 >= width {
        assert input[..1] == [b] && Groups([b]) == b % 0x80 + 0x80 * Groups([]);
      } else {
        ReadVarValue(rest, width, i + 7, next);
        var p := ReadVar(rest, width, i + 7, next);
        ReadVarStops(rest, width, i + 7, next);
        assert input[..p.used + 1][1..] == rest[..p.used] && input[..p.used + 1][0] == b;
        GroupsStep(b % 0x80, Groups(rest[..p.used]), i, width);
      }
    }
  }

  /** One more group, cut to the word. */
  lemma OneGroupCut(result: nat, bits: nat, i: nat, width: nat)
    requires result < Pow2(i) && bits < 0x80 && i < width
    ensures Or(result, Shl(bits, i) % Pow2(width)) == result + bits * Pow2(i) % Pow2(width)
    ensures result + bits * Pow2(i) % Pow2(width) < Pow2(i + 7)
  {
    hide Or, Shl, Pow2;
    var kept := bits % Pow2(width - i);
    CutShift(bits, i, width);
    OrDisjoint(result, kept, i);
    ShlIsMul(kept, i);
    GroupFits(result, kept, i);
  }

  lemma CutShift(bits: nat, i: nat, width: nat)
    requires i < width
    ensures var kept := bits % Pow2(width - i);
      && kept <= bits && Shl(bits, i) % Pow2(width) == Shl(kept, i)
      && bits * Pow2(i) % Pow2(width) == kept * Pow2(i)
  {
    hide Shl, Pow2;
    PowAdd(width - i, i);
    CutProduct(bits, Pow2(width - i), Pow2(i));
    ShlIsMul(bits, i);
    ShlIsMul(bits % Pow2(width - i), i);
  }

  lemma GroupFits(result: nat, kept: nat, i: nat)
    requires result < Pow2(i) && kept < 0x80
    ensures result + kept * Pow2(i) < Pow2(i + 7)
  {
    hide Pow2;
    Powers();
    PowAdd(7, i);
    TimesLess(Pow2(i), kept, 0x80);
  }

  lemma CutProduct(bits: nat, m: nat, p: nat)
    requires m >= 1 && p >= 1
    ensures bits * p % (m * p) == bits % m * p
  {
    MulAtLeast(m, p);
    LowerPart(bits * p, 0, bits, m, p, m * p);
  }

  /** The groups behind the first one do not meet it. */
  lemma GroupsStep(low: nat, high: nat, i: nat, width: nat)
    requires low < 0x80 && i + 7 < width
    ensures low * Pow2(i) % Pow2(width) + high * Pow2(i + 7) % Pow2(width)
         == (low + 0x80 * high) * Pow2(i) % Pow2(width)
  {
    hide Pow2;
    Powers();
    PowAdd(7, i);
    PowAdd(width - i - 7, i + 7);
    var x, p := low * Pow2(i), Pow2(i + 7);
    GroupFits(0, low, i);
    PowGrows(i + 7, width);
    ModShift(x, Pow2(width));
    LowerPart(high * p, 0, high, Pow2(width - i - 7), p, Pow2(width));
    LowerPart(x + high * p, x, high, Pow2(width - i - 7), p, Pow2(width));
    SplitProduct(low, high, Pow2(i));
  }

  /** A number below `p` in front of a multiple of it, modulo a multiple of it. */
  lemma LowerPart(n: nat, x: nat, high: nat, m: nat, p: nat, mp: nat)
    requires m >= 1 && x < p && mp == m * p && n == x + high * p
    ensures mp >= 1 && n % mp == x + high % m * p
  {
    DivModUnique(n, p, high, x);
    DigitsOf(n, p, m, high, high / m, mp);
  }

  lemma LowSeven(b: Byte)
    ensures And(b, 0x7F) == b % 0x80
  {
    Powers();
    AndLowMask(b, 7);
  }

  /** One step of the loop adds its seven bits at their place. */
  lemma OneGroup(result: nat, bits: nat, i: nat, width: nat)
    requires result < Pow2(i) && bits * Pow2(i) < Pow2(width)
    ensures Or(result, Shl(bits, i) % Pow2(width)) == result + bits * Pow2(i)
  {
    hide Pow2, Or, Shl;
    ShlIsMul(bits, i);
    OrDisjoint(result, bits, i);
    ModShift(bits * Pow2(i), Pow2(width));
  }

  /** One turn of the reading loop. */
  lemma ReadGroup(input: seq<Byte>, width: nat, i: nat, result: nat)
    requires input != [] && i < width && result < Pow2(i) && (input[0] % 0x80) * Pow2(i) < Pow2(width)
    ensures var next := result + (input[0] % 0x80) * Pow2(i);
      ReadVar(input, width, i, result) ==
        if input[0] < 0x80 then Parsed(next, 1)
        else
          match ReadVar(input[1..], width, i + 7, next)
          case Parsed(v, used) => Parsed(v, used + 1)
          case Short(used) => Short(used + 1)
  {
    hide And, Or, Shl, Pow2;
    LowSeven(input[0]);
    OneGroup(result, input[0] % 0x80, i, width);
  }

  /** Reading back what was written, whatever follows it: any value below 2^width. */
  lemma {:induction false} VarRoundTrip(v: nat, rest: seq<Byte>, width: nat, i: nat, result: nat)
    requires result < Pow2(i) && v * Pow2(i) < Pow2(width) && i < width
    ensures ReadVar(VarBytes(v) + rest, width, i, result) == Parsed(result + v * Pow2(i), |VarBytes(v)|)
    decreases v
  {
    hide ReadVar, Pow2;
    var input := VarBytes(v) + rest;
    var low, high := v % 0x80, v / 0x80;
    VarSplit(v, i);
    assert input[0] % 0x80 == low;
    ReadGroup(input, width, i, result);
    if v < 0x80 {
    } else {
      assert input[1..] == VarBytes(high) + rest;
      VarGroupBound(result, low, high, i, width);
      VarRoundTrip(high, rest, width, i + 7, result + low * Pow2(i));
    }
  }

  lemma VarSplit(v: nat, i: nat)
    ensures Pow2(i + 7) == 0x80 * Pow2(i)
    ensures v * Pow2(i) == (v % 0x80) * Pow2(i) + (v / 0x80) * Pow2(i + 7)
  {
    hide Pow2;
    Powers();
    PowAdd(7, i);
    SplitProduct(v % 0x80, v / 0x80, Pow2(i));
  }

  lemma SplitProduct(low: nat, high: nat, p: nat)
    ensures (low + 0x80 * high) * p == low * p + high * (0x80 * p)
  {}

  lemma VarGroupBound(result: nat, low: nat, high: nat, i: nat, width: nat)
    requires result < Pow2(i) && low < 0x80 && high > 0
    requires Pow2(i + 7) == 0x80 * Pow2(i) && high * Pow2(i + 7) < Pow2(width)
    ensures result + low * Pow2(i) < Pow2(i + 7) && i + 7 < width
  {
    var p := Pow2(i);
    assert low * p <= 0x7F * p;
    MulAtLeast(high, Pow2(i + 7));
    if i + 7 >= width {
      PowGrows(width, i + 7);
    }
  }

  /** Whatever is read fits the word. */
  lemma {:induction false} ReadVarFits(input: seq<Byte>, width: nat, i: nat, result: nat)
    requires result < Pow2(width)
    ensures ReadVar(input, width, i, result).Parsed? ==> ReadVar(input, width, i, result).value < Pow2(width)
    ensures ReadVar(input, width, i, result).used <= |input|
    decreases |input|
  {
    if i >= width || input == [] {
    } else {
      var next := Or(result, Shl(And(input[0], 0x7F), i) % Pow2(width));
      OrBound(result, Shl(And(input[0], 0x7F), i) % Pow2(width), width);
      if input[0] >= 0x80 {
        ReadVarFits(input[1..], width, i + 7, next);
      }
    }
  }

  /** The scratch buffers of 5 and 10 bytes are large enough. */
  lemma {:induction false} VarLength(v: nat, groups: nat)
    requires groups >= 1 && v < Pow2(7 * groups)
    ensures |VarBytes(v)| <= groups
    decreases groups
  {
    Powers();
    if v < 0x80 {
    } else {
      assert groups > 1;
      PowAdd(7, 7 * (groups - 1));
      VarLength(v / 0x80, groups - 1);
    }
  }

  // ---------------------------------------------------------------- two's complement and ZigZag

  function ToUnsigned(v: int, width: nat): (u: nat)
    ensures u < Pow2(width)
  {
    v % Pow2(width)
  }

  function ToSigned(u: nat, width: nat): (v: int)
    requires width > 0
  {
    if u < Pow2(width - 1) then u else u - Pow2(width)
  }

  predicate IsSigned(v: int, width: nat)
    requires width > 0
  {
    0 - Pow2(width - 1) <= v < Pow2(width - 1)
  }

  lemma ModShift(v: int, m: nat)
    requires m > 0
    ensures 0 <= v < m ==> v % m == v
    ensures 0 - m <= v < 0 ==> v % m == v + m
  {}

  lemma SignedRoundTrip(v: int, width: nat)
    requires width > 0 && IsSigned(v, width)
    ensures ToSigned(ToUnsigned(v, width), width) == v
  {
    ModShift(v, Pow2(width));
  }

  /** Negation and doubling wrap around, as on the machine. */
  function ZigzagEncode(v: int, width: nat): (u: nat)
    requires width > 0
  {
    if v < 0 then ToUnsigned(ToUnsigned(-v, width) * 2 - 1, width) else ToUnsigned(ToUnsigned(v, width) * 2, width)
  }

  function ZigzagDecode(u: nat, width: nat): (v: int)
    requires width > 0
  {
    ToSigned(Xor(u / 2, ToUnsigned(-(u % 2), width)), width)
  }

  /** Small magnitudes get small codes; this includes the most negative number. */
  lemma ZigzagValue(v: int, width: nat)
    requires width > 0 && IsSigned(v, width)
    ensures ZigzagEncode(v, width) == if v < 0 then -2 * v - 1 else 2 * v
  {
    hide Pow2;
    PowHalf(width);
    var m := Pow2(width);
    if v < 0 {
      ModShift(-v, m);
      ModShift(-2 * v - 1, m);
    } else {
      ModShift(v, m);
      ModShift(2 * v, m);
    }
  }

  lemma XorZero(a: nat)
    ensures Xor(a, 0) == a
  {}

  lemma ZigzagUnfold(u: nat, width: nat)
    requires width > 0 && u < Pow2(width)
    ensures ZigzagDecode(u, width) == if u % 2 == 1 then -(u / 2) - 1 else u / 2
  {
    hide Pow2, Xor, ToUnsigned;
    PowHalf(width);
    Flipped(u / 2, u % 2, width);
  }

  /** The exclusive or with the sign spread over the word. */
  lemma Flipped(half: nat, sign: int, width: nat)
    requires 0 <= sign <= 1 && half < Pow2(width)
    ensures Xor(half, ToUnsigned(-sign, width)) == if sign == 1 then Pow2(width) - 1 - half else half
  {
    hide Pow2, Xor;
    ModShift(-sign, Pow2(width));
    if sign == 1 {
      XorOnes(half, width);
    } else {
      XorZero(half);
    }
  }

  lemma ZigzagRoundTrip(v: int, width: nat)
    requires width > 0 && IsSigned(v, width)
    ensures ZigzagEncode(v, width) < Pow2(width) && ZigzagDecode(ZigzagEncode(v, width), width) == v
  {
    hide Pow2, ZigzagEncode, ZigzagDecode;
    PowHalf(width);
    ZigzagValue(v, width);
    ZigzagUnfold(ZigzagEncode(v, width), width);
  }

  /** Every code stands for some number, so the map is a bijection. */
  lemma ZigzagOnto(u: nat, width: nat)
    requires width > 0 && u < Pow2(width)
    ensures IsSigned(ZigzagDecode(u, width), width) && ZigzagEncode(ZigzagDecode(u, width), width) == u
  {
    hide Pow2, ZigzagEncode, ZigzagDecode;
    PowHalf(width);
    ZigzagUnfold(u, width);
    ZigzagValue(ZigzagDecode(u, width), width);
  }

  // ---------------------------------------------------------------- fixed width

  datatype Order = Little | Big

  function LittleBytes(v: nat, n: nat): (bytes: seq<Byte>)
    ensures |bytes| == n
  {
    if n == 0 then [] else [v % 0x100] + LittleBytes(v / 0x100, n - 1)
  }

  function FromLittle(bytes: seq<Byte>): (v: nat) {
    if bytes == [] then 0 else bytes[0] + 0x100 * FromLittle(bytes[1..])
  }

  function Reverse(bytes: seq<Byte>): (r: seq<Byte>)
    ensures |r| == |bytes| && forall i :: 0 <= i < |r| ==> r[i] == bytes[|bytes| - 1 - i]
  {
    seq(|bytes|, i requires 0 <= i < |bytes| => bytes[|bytes| - 1 - i])
  }

  /** An integer of `n` bytes in the memory of a machine of the given order, and back. */
  function Layout(v: nat, n: nat, order: Order): (bytes: seq<Byte>)
    ensures |bytes| == n
  {
    if order == Little then LittleBytes(v, n) else Reverse(LittleBytes(v, n))
  }

  function FromLayout(bytes: seq<Byte>, order: Order): nat {
    if order == Little then FromLittle(bytes) else FromLittle(Reverse(bytes))
  }

  function ByteSwap(v: nat, n: nat): nat {
    FromLittle(Reverse(LittleBytes(v, n)))
  }

  /** What the source stores: swapped first when the wanted order is not the machine's. */
  function Stored(v: nat, n: nat, order: Order, host: Order): (bytes: seq<Byte>)
    ensures |bytes| == n
  {
    Layout(if n > 1 && order != host then ByteSwap(v, n) else v, n, host)
  }

  function Fetched(bytes: seq<Byte>, order: Order, host: Order): nat {
    var v := FromLayout(bytes, host);
    if |bytes| > 1 && order != host then ByteSwap(v, |bytes|) else v
  }

  lemma {:induction false} LittleByte(v: nat, n: nat, i: nat)
    requires i < n
    ensures LittleBytes(v, n)[i] == v / Pow2(8 * i) % 0x100
  {
    if i == 0 {
    } else {
      LittleByte(v / 0x100, n - 1, i - 1);
      Powers();
      PowAdd(8, 8 * (i - 1));
      DivTwice(v, 0x100, Pow2(8 * (i - 1)));
    }
  }

  /** The bytes that are stored for an integer: the least significant one first in little
      endian, the most significant one first in big endian, on every machine. */
  lemma StoredByte(v: nat, n: nat, order: Order, host: Order, i: nat)
    requires v < Pow2(8 * n) && i < n
    ensures order == Little ==> Stored(v, n, order, host)[i] == v / Pow2(8 * i) % 0x100
    ensures order == Big ==> Stored(v, n, order, host)[i] == v / Pow2(8 * (n - 1 - i)) % 0x100
  {
    hide Pow2, LittleBytes, Stored;
    StoredIsPortable(v, n, order, host);
    LittleByte(v, n, i);
    LittleByte(v, n, n - 1 - i);
  }

  lemma {:induction false} FromLittleBytes(v: nat, n: nat)
    requires v < Pow2(8 * n)
    ensures FromLittle(LittleBytes(v, n)) == v
  {
    if n == 0 {
    } else {
      Powers();
      PowAdd(8, 8 * (n - 1));
      FromLittleBytes(v / 0x100, n - 1);
      assert LittleBytes(v, n)[1..] == LittleBytes(v / 0x100, n - 1);
    }
  }

  lemma {:induction false} LittleBytesFrom(bytes: seq<Byte>)
    ensures LittleBytes(FromLittle(bytes), |bytes|) == bytes
  {
    if bytes == [] {
    } else {
      LittleBytesFrom(bytes[1..]);
      LowByte(bytes[0], FromLittle(bytes[1..]));
    }
  }

  lemma LowByte(b: Byte, rest: nat)
    ensures (b + 0x100 * rest) % 0x100 == b && (b + 0x100 * rest) / 0x100 == rest
  {}

  lemma ReverseTwice(bytes: seq<Byte>)
    ensures Reverse(Reverse(bytes)) == bytes
  {}

  lemma ReverseShort(bytes: seq<Byte>)
    ensures |bytes| <= 1 ==> Reverse(bytes) == bytes
  {}

  /** The bytes do not depend on the machine that writes them. */
  lemma StoredIsPortable(v: nat, n: nat, order: Order, host: Order)
    requires v < Pow2(8 * n)
    ensures Stored(v, n, order, host) == Layout(v, n, order)
  {
    hide Pow2, LittleBytes, FromLittle, Reverse;
    var little := LittleBytes(v, n);
    LittleBytesFrom(Reverse(little));
    ReverseTwice(little);
    ReverseShort(little);
  }

  /** A machine of either order reads back what a machine of either order wrote. */
  lemma FixedRoundTrip(v: nat, n: nat, order: Order, writer: Order, reader: Order)
    requires v < Pow2(8 * n)
    ensures Fetched(Stored(v, n, order, writer), order, reader) == v
  {
    hide Pow2, LittleBytes, FromLittle, Reverse, Stored;
    StoredIsPortable(v, n, order, writer);
    FromLittleBytes(v, n);
    var little := LittleBytes(v, n);
    ReverseTwice(little);
    LittleBytesFrom(Reverse(little));
    ReverseShort(little);
  }
}
