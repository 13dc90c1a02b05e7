/** The typed reads and writes, and what a whole script of them gives back. */
module ByteScripts {
  import opened Bits
  import opened ByteTapes
  import opened ByteCodec

  /** How a string's length is written: not at all, as an integer or as a varint. */
  datatype Prefix = Auto | U16 | U32 | U64 | Varint

  /** The template arguments of read and write: an integer of a number of bytes, fixed or
      variable in length, a floating-point number, or a string. */
  datatype Kind =
    | Int(bytes: nat, signed: bool)
    | Var(bytes: nat, signed: bool)
    | Float(bytes: nat)
    | Str(prefix: Prefix)

  /** A floating-point number stands for its bits, which are all that is ever copied. */
  datatype Value = Number(v: int) | Text(body: seq<Byte>)

  datatype Item = Item(kind: Kind, order: Order, value: Value)

  predicate IsInt(v: int, bytes: nat, signed: bool) {
    bytes in {1, 2, 4, 8} && if signed then IsSigned(v, 8 * bytes) else 0 <= v < Pow2(8 * bytes)
  }

  /** The value has the type the template was instantiated with. */
  predicate Typed(kind: Kind, value: Value) {
    match kind
    case Int(n, signed) => value.Number? && IsInt(value.v, n, signed)
    case Var(n, signed) => value.Number? && IsInt(value.v, n, signed)
    case Float(n) => n in {4, 8} && value.Number? && IsInt(value.v, n, false)
    case Str(_) => value.Text? && |value.body| < Pow2(64)
  }

  function PrefixBytes(prefix: Prefix): (n: nat) {
    match prefix
    case Auto => 0
    case U16 => 2
    case U32 => 4
    case U64 => 8
    case Varint => 8
  }

  /** A string's length can be written in its prefix; without a prefix, nothing follows. */
  predicate Fits(kind: Kind, value: Value, follows: seq<Byte>) {
    kind.Str? && value.Text? ==>
      if kind.prefix.Auto? then follows == [] else |value.body| < Pow2(8 * PrefixBytes(kind.prefix))
  }

  function VarWidth(bytes: nat): nat {
    if bytes <= 4 then 32 else 64
  }

  function EncodeLength(n: nat, prefix: Prefix, order: Order, host: Order): seq<Byte> {
    var cut := n % Pow2(8 * PrefixBytes(prefix));
    if prefix.Auto? then []
    else if prefix == Varint then VarBytes(cut)
    else Stored(cut, PrefixBytes(prefix), order, host)
  }

  function Encode(kind: Kind, value: Value, order: Order, host: Order): seq<Byte>
    requires Typed(kind, value)
  {
    match kind
    case Int(n, _) => Stored(ToUnsigned(value.v, 8 * n), n, order, host)
    case Var(n, signed) => VarBytes(if signed then ZigzagEncode(value.v, VarWidth(n)) else value.v)
    case Float(n) => Stored(value.v, n, order, host)
    case Str(prefix) => EncodeLength(|value.body|, prefix, order, host) + value.body
  }

  function Cast(v: int, bytes: nat, signed: bool): int
    requires bytes > 0
  {
    if signed then ToSigned(ToUnsigned(v, 8 * bytes), 8 * bytes) else ToUnsigned(v, 8 * bytes)
  }

  function DecodeLength(input: seq<Byte>, prefix: Prefix, order: Order, host: Order): (p: Parsed<nat>)
    ensures p.used <= |input|
  {
    if prefix.Auto? then Parsed(|input|, 0)
    else if prefix == Varint then
      VarUses(input, 64);
      ReadVar(input, 64, 0, 0)
    else
      var n := PrefixBytes(prefix);
      if |input| < n then Short(0) else Parsed(Fetched(input[..n], order, host), n)
  }

  lemma VarUses(input: seq<Byte>, width: nat)
    ensures ReadVar(input, width, 0, 0).used <= |input|
  {
    ReadVarFits(input, width, 0, 0);
  }

  function Decode(kind: Kind, input: seq<Byte>, order: Order, host: Order): (p: Parsed<Value>)
    requires !kind.Str? ==> kind.bytes > 0
    ensures p.used <= |input|
  {
    match kind
    case Int(n, signed) =>
      if |input| < n then Short(0)
      else Parsed(Number(Cast(Fetched(input[..n], order, host), n, signed)), n)
    case Var(n, signed) =>
      VarUses(input, VarWidth(n));
      (match ReadVar(input, VarWidth(n), 0, 0)
       case Short(used) => Short(used)
       case Parsed(u, used) =>
         Parsed(Number(Cast(if signed then ZigzagDecode(u, VarWidth(n)) else u, n, signed)), used))
    case Float(n) =>
      if |input| < n then Short(0) else Parsed(Number(Fetched(input[..n], order, host)), n)
    case Str(prefix) =>
      match DecodeLength(input, prefix, order, host)
      case Short(used) => Short(used)
      case Parsed(len, used) =>
        if |input| - used < len then Short(used) else Parsed(Text(input[used..used + len]), used + len)
  }

  lemma CastIsIdentity(v: int, bytes: nat, signed: bool)
    requires IsInt(v, bytes, signed)
    ensures Cast(v, bytes, signed) == v
  {
    hide Pow2;
    if signed {
      SignedRoundTrip(v, 8 * bytes);
    } else {
      ModShift(v, Pow2(8 * bytes));
    }
  }

  /** A fixed-width integer is read back from its two's complement. */
  lemma CastOfUnsigned(v: int, bytes: nat, signed: bool)
    requires IsInt(v, bytes, signed)
    ensures Cast(ToUnsigned(v, 8 * bytes), bytes, signed) == v
  {
    hide Pow2;
    var u := ToUnsigned(v, 8 * bytes);
    ModShift(u, Pow2(8 * bytes));
    CastIsIdentity(v, bytes, signed);
  }

  /** Narrow integers fit the 32-bit varint path. */
  lemma Widens(v: int, bytes: nat, signed: bool)
    requires IsInt(v, bytes, signed)
    ensures if signed then IsSigned(v, VarWidth(bytes)) else 0 <= v < Pow2(VarWidth(bytes))
  {
    PowGrows(8 * bytes - 1, VarWidth(bytes) - 1);
    PowGrows(8 * bytes, VarWidth(bytes));
  }

  lemma VarReads(v: nat, rest: seq<Byte>, width: nat)
    requires v < Pow2(width) && width > 0
    ensures ReadVar(VarBytes(v) + rest, width, 0, 0) == Parsed(v, |VarBytes(v)|)
  {
    assert v * Pow2(0) == v;
    VarRoundTrip(v, rest, width, 0, 0);
  }

  lemma LengthReads(n: nat, prefix: Prefix, order: Order, host: Order, rest: seq<Byte>)
    ensures var bytes := EncodeLength(n, prefix, order, host);
      DecodeLength(bytes + rest, prefix, order, host)
      == Parsed(if prefix.Auto? then |rest| else n % Pow2(8 * PrefixBytes(prefix)), |bytes|)
  {
    hide Pow2, ReadVar, VarBytes, Stored, Fetched;
    var bytes := EncodeLength(n, prefix, order, host);
    var cut := n % Pow2(8 * PrefixBytes(prefix));
    if prefix.Auto? {
      assert bytes + rest == rest;
    } else if prefix == Varint {
      VarReads(cut, rest, 64);
    } else {
      assert (bytes + rest)[..PrefixBytes(prefix)] == bytes;
      FixedRoundTrip(cut, PrefixBytes(prefix), order, host, host);
    }
  }

  lemma NumberRoundTrip(kind: Kind, value: Value, order: Order, host: Order, rest: seq<Byte>)
    requires Typed(kind, value) && !kind.Str?
    ensures Decode(kind, Encode(kind, value, order, host) + rest, order, host)
         == Parsed(value, |Encode(kind, value, order, host)|)
  {
    hide Pow2, ReadVar, VarBytes, Stored, Fetched, Cast, ZigzagEncode, ZigzagDecode;
    var bytes := Encode(kind, value, order, host);
    match kind
    case Int(n, signed) =>
      assert (bytes + rest)[..n] == bytes;
      FixedRoundTrip(ToUnsigned(value.v, 8 * n), n, order, host, host);
      CastOfUnsigned(value.v, n, signed);
    case Var(n, signed) =>
      Widens(value.v, n, signed);
      if signed {
        ZigzagRoundTrip(value.v, VarWidth(n));
      }
      VarReads(if signed then ZigzagEncode(value.v, VarWidth(n)) else value.v, rest, VarWidth(n));
      CastIsIdentity(value.v, n, signed);
    case Float(n) =>
      assert (bytes + rest)[..n] == bytes;
      FixedRoundTrip(value.v, n, order, host, host);
  }

  /** A string comes back when its length fits or nothing follows, and otherwise something
      else does, or the data runs out: the prefix holds the length modulo its range, and
      without one the read takes all there is. */
  lemma StringRoundTrip(kind: Kind, value: Value, order: Order, host: Order, rest: seq<Byte>)
    requires Typed(kind, value) && kind.Str?
    ensures var p := Decode(kind, Encode(kind, value, order, host) + rest, order, host);
      if Fits(kind, value, rest) then p == Parsed(value, |Encode(kind, value, order, host)|)
      else p.Parsed? ==> p.value != value
  {
    hide Pow2, EncodeLength, DecodeLength;
    var n := |value.body|;
    var prefix := EncodeLength(n, kind.prefix, order, host);
    var range := Pow2(8 * PrefixBytes(kind.prefix));
    LengthReads(n, kind.prefix, order, host, value.body + rest);
    assert Encode(kind, value, order, host) + rest == prefix + (value.body + rest);
    ModShift(n, range);
    assert (prefix + (value.body + rest))[|prefix|..|prefix| + n] == value.body;
  }

  /** The length 65536 does not fit two bytes: the string comes back empty, and its bytes are
      left for the next read. */
  lemma LongStringIsLost(order: Order, host: Order, rest: seq<Byte>)
    ensures var value := Text(Zeros(0x1_0000));
      Typed(Str(U16), value)
      && Decode(Str(U16), Encode(Str(U16), value, order, host) + rest, order, host) == Parsed(Text([]), 2)
  {
    hide Pow2, Zeros, Stored, Fetched, EncodeLength, DecodeLength;
    var body := Zeros(0x1_0000);
    var prefix := EncodeLength(|body|, U16, order, host);
    SixteenBits(body);
    LengthReads(|body|, U16, order, host, body + rest);
    PrefixLength(|body|, order, host);
    assert Encode(Str(U16), Text(body), order, host) + rest == prefix + (body + rest);
    assert (prefix + (body + rest))[2..2] == [];
  }

  lemma SixteenBits(body: seq<Byte>)
    requires |body| == 0x1_0000
    ensures |body| < Pow2(64) && |body| % Pow2(16) == 0
  {
    Powers();
    PowGrows(17, 64);
  }

  lemma PrefixLength(n: nat, order: Order, host: Order)
    ensures |EncodeLength(n, U16, order, host)| == 2
  {}

  // ---------------------------------------------------------------- the bytes of an item

  /** An integer takes as many bytes as its type; they are the digits of its two's complement
      in base 256, the least significant one first in little endian and last in big endian. */
  lemma IntegerBytes(n: nat, signed: bool, v: int, order: Order, host: Order, i: nat)
    requires IsInt(v, n, signed) && i < n
    ensures var bytes, u := Encode(Int(n, signed), Number(v), order, host), if v < 0 then v + Pow2(8 * n) else v;
      && |bytes| == n
      && (order == Little ==> bytes[i] == u / Pow2(8 * i) % 0x100)
      && (order == Big ==> bytes[i] == u / Pow2(8 * (n - 1 - i)) % 0x100)
  {
    hide Pow2, Stored;
    PowHalf(8 * n);
    ModShift(v, Pow2(8 * n));
    StoredByte(ToUnsigned(v, 8 * n), n, order, host, i);
  }

  /** A floating-point number likewise, by its bits. */
  lemma FloatBytes(n: nat, v: int, order: Order, host: Order, i: nat)
    requires n in {4, 8} && IsInt(v, n, false) && i < n
    ensures var bytes := Encode(Float(n), Number(v), order, host);
      && |bytes| == n
      && (order == Little ==> bytes[i] == v / Pow2(8 * i) % 0x100)
      && (order == Big ==> bytes[i] == v / Pow2(8 * (n - 1 - i)) % 0x100)
  {
    hide Pow2, Stored;
    StoredByte(v, n, order, host, i);
  }

  /** An integer of variable length: a signed one is folded to its magnitude first. */
  lemma VariableBytes(n: nat, signed: bool, v: int, order: Order, host: Order)
    requires IsInt(v, n, signed)
    ensures Encode(Var(n, signed), Number(v), order, host)
         == VarBytes(if !signed then v else if v < 0 then -2 * v - 1 else 2 * v)
  {
    hide Pow2, ZigzagEncode, VarBytes;
    Widens(v, n, signed);
    if signed {
      ZigzagValue(v, VarWidth(n));
    }
  }

  /** A string's length goes in front of it, in two, four or eight bytes of which the low ones
      are right for every length, or as a varint, or not at all. */
  lemma TextBytes(prefix: Prefix, n: nat, body: seq<Byte>, order: Order, host: Order, i: nat)
    requires |body| < Pow2(64)
    requires (prefix == U16 && n == 2) || (prefix == U32 && n == 4) || (prefix == U64 && n == 8)
    requires i < n
    ensures var bytes := Encode(Str(prefix), Text(body), order, host);
      && |bytes| == n + |body| && bytes[n..] == body
      && (order == Little ==> bytes[i] == |body| / Pow2(8 * i) % 0x100)
      && (order == Big ==> bytes[i] == |body| / Pow2(8 * (n - 1 - i)) % 0x100)
  {
    hide Pow2, Stored;
    StoredByte(|body| % Pow2(8 * n), n, order, host, i);
    LowDigits(|body|, n, i);
    LowDigits(|body|, n, n - 1 - i);
  }

  /** Cutting a number to `n` bytes keeps these bytes. */
  lemma LowDigits(v: nat, n: nat, i: nat)
    requires i < n
    ensures v % Pow2(8 * n) / Pow2(8 * i) % 0x100 == v / Pow2(8 * i) % 0x100
  {
    hide Pow2;
    Powers();
    PowAdd(8, 8 * (n - i - 1));
    PowAdd(8 * (n - i), 8 * i);
    LowDigit(v, Pow2(8 * i), Pow2(8 * (n - i - 1)), Pow2(8 * (n - i)), Pow2(8 * n));
  }

  lemma LowDigit(v: nat, p: nat, m: nat, top: nat, whole: nat)
    requires p >= 1 && m >= 1 && top == 0x100 * m && whole == top * p
    ensures whole >= 1 && v % whole / p % 0x100 == v / p % 0x100
  {
    var high, x := v / p, v % p;
    assert v == x + high * p;
    LowerPart(v, x, high, top, p, whole);
    Upper(v % whole, p, high % top, x);
    ModTwice(high, 0x100, m, top);
  }

  lemma Upper(n: nat, p: nat, q: nat, x: nat)
    requires x < p && n == x + q * p
    ensures n / p == q
  {
    DivModUnique(n, p, q, x);
  }

  lemma ModTwice(v: nat, a: nat, b: nat, ab: nat)
    requires a >= 1 && b >= 1 && ab == a * b
    ensures ab >= 1 && v % ab % a == v % a
  {
    DigitsOf(v, a, b, v / a, v / a / b, ab);
    DivModUnique(v % ab, a, v / a % b, v % a);
  }

  lemma VarTextBytes(body: seq<Byte>, order: Order, host: Order)
    requires |body| < Pow2(64)
    ensures Encode(Str(Varint), Text(body), order, host) == VarBytes(|body|) + body
  {
    hide Pow2, VarBytes, Stored;
    ModShift(|body|, Pow2(64));
  }

  lemma BareTextBytes(body: seq<Byte>, order: Order, host: Order)
    requires |body| < Pow2(64)
    ensures Encode(Str(Auto), Text(body), order, host) == body
  {
    hide Pow2, VarBytes, Stored;
    assert [] + body == body;
  }

  // ---------------------------------------------------------------- reading any bytes

  /** A number is read from any bytes: none are used up when there are too few for an integer
      or a float; a varint is folded back, and cut to its type. */
  lemma NumberRead(kind: Kind, input: seq<Byte>, order: Order, host: Order)
    requires !kind.Str? && (kind.bytes in {1, 2, 4, 8})
    ensures !kind.Var? && |input| < kind.bytes ==> Decode(kind, input, order, host) == Short(0)
    ensures !kind.Var? && |input| >= kind.bytes ==> Decode(kind, input, order, host).Parsed?
    ensures kind.Var? ==>
      var u := ReadVar(input, if kind.bytes == 8 then 64 else 32, 0, 0);
      match Decode(kind, input, order, host)
      case Short(used) => u == Short(used)
      case Parsed(value, used) =>
        && u.Parsed? && used == u.used && value.Number? && IsInt(value.v, kind.bytes, kind.signed)
        && var v := if !kind.signed then u.value else if u.value % 2 == 1 then -(u.value / 2) - 1 else u.value / 2;
           value.v % Pow2(8 * kind.bytes) == v % Pow2(8 * kind.bytes)
  {
    hide Pow2, ReadVar, Fetched, Cast, ZigzagDecode;
    match kind
    case Int(_, _) =>
    case Float(_) =>
    case Var(n, signed) =>
      var u := ReadVar(input, VarWidth(n), 0, 0);
      if u.Parsed? {
        ReadVarFits(input, VarWidth(n), 0, 0);
        ZigzagUnfold(u.value, VarWidth(n));
        CastCongruent(if signed then ZigzagDecode(u.value, VarWidth(n)) else u.value, n, signed);
      }
  }

  /** A cast keeps the value modulo the range of the type. */
  lemma CastCongruent(v: int, bytes: nat, signed: bool)
    requires bytes in {1, 2, 4, 8}
    ensures IsInt(Cast(v, bytes, signed), bytes, signed)
    ensures Cast(v, bytes, signed) % Pow2(8 * bytes) == v % Pow2(8 * bytes)
  {
    hide Pow2;
    var m := Pow2(8 * bytes);
    PowHalf(8 * bytes);
    ModShift(v % m, m);
    ModShift(v % m - m, m);
  }

  /** A string is read from any bytes: nothing is used up before the length is there, and the
      length alone when it promises more than there is. */
  lemma TextRead(len: nat, prefix: Prefix, n: nat, order: Order, host: Order, rest: seq<Byte>)
    requires (prefix == U16 && n == 2) || (prefix == U32 && n == 4) || (prefix == U64 && n == 8)
    requires len < Pow2(8 * n)
    ensures Decode(Str(prefix), Stored(len, n, order, host) + rest, order, host)
         == if |rest| < len then Short(n) else Parsed(Text(rest[..len]), n + len)
  {
    hide Pow2, Stored, Fetched;
    var head := Stored(len, n, order, host);
    FixedRoundTrip(len, n, order, host, host);
    assert (head + rest)[..n] == head;
    if |rest| >= len {
      TextBehind(head, rest, len);
    }
  }

  lemma TextBehind(head: seq<Byte>, rest: seq<Byte>, len: nat)
    requires len <= |rest|
    ensures (head + rest)[|head|..|head| + len] == rest[..len]
  {}

  lemma ShortTextRead(prefix: Prefix, n: nat, order: Order, host: Order, input: seq<Byte>)
    requires (prefix == U16 && n == 2) || (prefix == U32 && n == 4) || (prefix == U64 && n == 8)
    requires |input| < n
    ensures Decode(Str(prefix), input, order, host) == Short(0)
  {}

  lemma WholeTextRead(input: seq<Byte>, order: Order, host: Order)
    ensures Decode(Str(Auto), input, order, host) == Parsed(Text(input), |input|)
  {
    assert input[0..|input|] == input;
  }

  lemma VarTextRead(input: seq<Byte>, order: Order, host: Order)
    ensures var len, p := ReadVar(input, 64, 0, 0), Decode(Str(Varint), input, order, host);
      && len.used <= |input|
      && (len.Short? || |input| - len.used < len.value ==> p == Short(len.used))
      && (len.Parsed? && |input| - len.used >= len.value ==>
          p == Parsed(Text(input[len.used..len.used + len.value]), len.used + len.value))
  {
    hide Pow2, ReadVar, Fetched, PrefixBytes;
    VarUses(input, 64);
    var len := ReadVar(input, 64, 0, 0);
    assert DecodeLength(input, Varint, order, host) == len;
  }

  ghost predicate AllTyped(script: seq<Item>) {
    forall k :: 0 <= k < |script| ==> Typed(script[k].kind, script[k].value)
  }

  ghost function EncodeAll(script: seq<Item>, host: Order): seq<Byte>
    requires AllTyped(script)
  {
    if script == [] then []
    else Encode(script[0].kind, script[0].value, script[0].order, host) + EncodeAll(script[1..], host)
  }

  /** Every value fits its place. */
  ghost predicate AllFit(script: seq<Item>, host: Order, rest: seq<Byte>)
    requires AllTyped(script)
  {
    forall k :: 0 <= k < |script| ==> FitsAt(script, k, host, rest)
  }

  /** Behind a value come the later ones and then `rest`. */
  ghost predicate FitsAt(script: seq<Item>, k: nat, host: Order, rest: seq<Byte>)
    requires AllTyped(script) && k < |script|
  {
    Fits(script[k].kind, script[k].value, EncodeAll(script[k + 1..], host) + rest)
  }

  ghost function Values(script: seq<Item>): seq<Value> {
    seq(|script|, k requires 0 <= k < |script| => script[k].value)
  }

  /** The matching reads, one after the other, up to the first that throws. */
  ghost function DecodeAll(script: seq<Item>, input: seq<Byte>, host: Order): (p: Parsed<seq<Value>>)
    requires AllTyped(script)
    ensures p.used <= |input|
    decreases |script|
  {
    if script == [] then Parsed([], 0)
    else
      match Decode(script[0].kind, input, script[0].order, host)
      case Short(used) => Short(used)
      case Parsed(value, used) =>
        match DecodeAll(script[1..], input[used..], host)
        case Short(more) => Short(used + more)
        case Parsed(values, more) => Parsed([value] + values, used + more)
  }

  /** The reads after the first. */
  lemma DecodeStep(script: seq<Item>, input: seq<Byte>, host: Order)
    requires AllTyped(script) && script != []
    ensures var head := Decode(script[0].kind, input, script[0].order, host);
      if head.Short? then DecodeAll(script, input, host) == Short(head.used)
      else
        var more := DecodeAll(script[1..], input[head.used..], host);
        DecodeAll(script, input, host) ==
          if more.Short? then Short(head.used + more.used)
          else Parsed([head.value] + more.value, head.used + more.used)
  {
    hide Decode, Typed;
  }

  lemma FirstAndOthers(script: seq<Item>, host: Order, rest: seq<Byte>)
    requires AllTyped(script) && script != []
    ensures AllFit(script, host, rest) <==> FitsAt(script, 0, host, rest) && AllFit(script[1..], host, rest)
    ensures Values(script) == [script[0].value] + Values(script[1..])
  {
    hide FitsAt, EncodeAll, Typed;
    var others := script[1..];
    forall k: nat | k < |others|
      ensures FitsAt(others, k, host, rest) <==> FitsAt(script, k + 1, host, rest)
    {
      FitsLater(script, k, host, rest);
    }
    assert forall k: nat :: 0 < k < |script| ==>
      (FitsAt(script, k, host, rest) <==> FitsAt(others, k - 1, host, rest));
  }

  lemma FitsLater(script: seq<Item>, k: nat, host: Order, rest: seq<Byte>)
    requires AllTyped(script) && k + 1 < |script|
    ensures FitsAt(script[1..], k, host, rest) <==> FitsAt(script, k + 1, host, rest)
  {
    hide Fits, EncodeAll, Typed;
    assert script[1..][k + 1..] == script[k + 2..];
  }

  /** Reading a script back gives its values exactly when every string length fits its prefix
      and nothing follows a string without one; the reads then use exactly the bytes written. */
  lemma {:induction false} ScriptRoundTrip(script: seq<Item>, host: Order, rest: seq<Byte>)
    requires AllTyped(script)
    ensures var p := DecodeAll(script, EncodeAll(script, host) + rest, host);
      && (p.Parsed? && p.value == Values(script) <==> AllFit(script, host, rest))
      && (AllFit(script, host, rest) ==> p.used == |EncodeAll(script, host)|)
  {
    hide Encode, Decode, Fits, Typed, DecodeAll, Values, AllFit;
    if script == [] {
      NoItems(host, rest);
      assert EncodeAll(script, host) + rest == rest;
    } else {
      var first, others := script[0], script[1..];
      var bytes := Encode(first.kind, first.value, first.order, host);
      var tail := EncodeAll(others, host) + rest;
      assert EncodeAll(script, host) + rest == bytes + tail;
      ItemRoundTrip(first, host, tail);
      FirstAndOthers(script, host, rest);
      DecodeStep(script, bytes + tail, host);
      assert (bytes + tail)[|bytes|..] == tail;
      ScriptRoundTrip(others, host, rest);
      WellTyped(first.kind, first.value);
      var head := Decode(first.kind, bytes + tail, first.order, host);
      if head.Parsed? {
        var more := DecodeAll(others, (bytes + tail)[head.used..], host);
        if more.Parsed? {
          ConsEqual(head.value, more.value, first.value, Values(others));
        }
      }
    }
  }

  lemma WellTyped(kind: Kind, value: Value)
    requires Typed(kind, value)
    ensures !kind.Str? ==> kind.bytes > 0
  {}

  lemma NoItems(host: Order, rest: seq<Byte>)
    ensures DecodeAll([], rest, host) == Parsed([], 0) && Values([]) == [] && AllFit([], host, rest)
  {}

  lemma ConsEqual(v: Value, vs: seq<Value>, w: Value, ws: seq<Value>)
    ensures [v] + vs == [w] + ws <==> v == w && vs == ws
  {
    assert ([v] + vs)[1..] == vs && ([w] + ws)[1..] == ws;
    assert ([v] + vs)[0] == v && ([w] + ws)[0] == w;
  }

  lemma ItemRoundTrip(item: Item, host: Order, rest: seq<Byte>)
    requires Typed(item.kind, item.value)
    ensures var bytes := Encode(item.kind, item.value, item.order, host);
      var p := Decode(item.kind, bytes + rest, item.order, host);
      if Fits(item.kind, item.value, rest) then p == Parsed(item.value, |bytes|)
      else p.Parsed? ==> p.value != item.value
  {
    hide Encode, Decode;
    if item.kind.Str? {
      StringRoundTrip(item.kind, item.value, item.order, host, rest);
    } else {
      NumberRoundTrip(item.kind, item.value, item.order, host, rest);
    }
  }
}
