/** The typed reads and writes on the chunked array. */
module ByteIo {
  import opened Bits
  import opened ByteTapes
  import opened ByteCodec
  import opened ByteScripts
  import opened ByteArrays

  lemma ContinuedByte(v: nat)
    ensures Or(And(v, 0x7F), 0x80) == v % 0x80 + 0x80
  {
    Powers();
    AndLowMask(v, 7);
    ShlIsMul(1, 7);
    OrDisjoint(v % 0x80, 1, 7);
  }

  lemma VarStep(v: nat)
    ensures VarBytes(v) == if v < 0x80 then [v] else [v % 0x80 + 0x80] + VarBytes(v / 0x80)
  {}

  /** The bytes of a varint, in the source's scratch buffer of `room` bytes. */
  method FillVar(value: nat, room: nat) returns (tmp: array<Byte>, i: nat)
    requires room >= 1 && value < Pow2(7 * room)
    ensures fresh(tmp) && i <= tmp.Length && tmp[..i] == VarBytes(value)
  {
    hide Or, And, Pow2, VarBytes;
    tmp := new Byte[room](_ => 0);
    i := 0;
    var left := value;
    VarLength(value, room);
    while left >= 0x80
      invariant i + |VarBytes(left)| <= room && tmp[..i] + VarBytes(left) == VarBytes(value)
    {
      ContinuedByte(left);
      VarStep(left);
      ghost var before := tmp[..i];
      tmp[i] := Or(And(left, 0x7F), 0x80);
      assert tmp[..i + 1] == before + [left % 0x80 + 0x80];
      i := i + 1;
      left := left / 0x80;
    }
    VarStep(left);
    ghost var before := tmp[..i];
    tmp[i] := left;
    i := i + 1;
    assert tmp[..i] == before + [left];
  }

  /** writeVaruint32 and writeVaruint64. */
  method WriteVaruint(ba: ByteArray, value: nat, width: nat)
    requires ba.Valid() && width in {32, 64} && value < Pow2(width)
    modifies ba, ba.repr
    ensures ba.Valid() && fresh(ba.repr - old(ba.repr)) && ba.order == old(ba.order)
    ensures Wrote(old(ba.View()), VarBytes(value), ba.View())
  {
    hide Pow2, Wrote, Written, VarBytes, ByteArray.Valid;
    ba.InView();
    var room := if width == 32 then 5 else 10;
    PowGrows(width, 7 * room);
    var tmp, i := FillVar(value, room);
    ba.Write(tmp[..i]);
    WrittenWrote(old(ba.View()), VarBytes(value), ba.baseSize);
  }

  /** readVaruint32 and readVaruint64. */
  method ReadVaruint(ba: ByteArray, width: nat) returns (result: Parsed<nat>)
    requires ba.Valid() && width in {32, 64}
    modifies ba`position, ba`cur
    ensures ba.Valid() && InRange(old(ba.View()))
    ensures result == ReadVar(Rest(old(ba.View())), width, 0, 0)
    ensures ba.View() == old(ba.View()).(position := old(ba.position) + result.used)
  {
    hide Pow2, Or, And, Shl, Flat, ByteArray.Valid;
    ba.InView();
    ghost var input := Rest(ba.View());
    var value, i, used := 0, 0, 0;
    while i < width
      invariant ba.Valid() && used <= |input| && ba.View() == old(ba.View()).(position := old(ba.position) + used)
      invariant ReadVar(input, width, 0, 0) == Later(ReadVar(input[used..], width, i, value), used)
    {
      assert Rest(ba.View()) == input[used..];
      var read := ba.Read(1);
      if read.OutOfRange? {
        return Short(used);
      }
      var b := read.value[0];
      assert b == input[used..][0] && input[used..][1..] == input[used + 1..];
      used := used + 1;
      value := Or(value, Shl(And(b, 0x7F), i) % Pow2(width));
      if b < 0x80 {
        break;
      }
      i := i + 7;
    }
    return Parsed(value, used);
  }

  ghost function Later(p: Parsed<nat>, n: nat): Parsed<nat> {
    match p
    case Parsed(v, used) => Parsed(v, used + n)
    case Short(used) => Short(used + n)
  }

  /** A fixed-width integer in the array's byte order, on a machine of order `host`. */
  method WriteFixed(ba: ByteArray, v: nat, n: nat, host: Order)
    requires ba.Valid()
    modifies ba, ba.repr
    ensures ba.Valid() && fresh(ba.repr - old(ba.repr)) && ba.order == old(ba.order)
    ensures Wrote(old(ba.View()), Stored(v, n, ba.order, host), ba.View())
  {
    hide Wrote, Written, Layout, ByteSwap, ByteArray.Valid;
    ba.InView();
    var stored := v;
    if n > 1 && ba.order != host {
      stored := ByteSwap(v, n);
    }
    ba.Write(Layout(stored, n, host));
    WrittenWrote(old(ba.View()), Layout(stored, n, host), ba.baseSize);
  }

  method ReadFixed(ba: ByteArray, n: nat, host: Order) returns (result: Parsed<nat>)
    requires ba.Valid() && n > 0
    modifies ba`position, ba`cur
    ensures ba.Valid() && InRange(old(ba.View()))
    ensures var input := Rest(old(ba.View()));
      result == if |input| < n then Short(0) else Parsed(Fetched(input[..n], ba.order, host), n)
    ensures ba.View() == old(ba.View()).(position := old(ba.position) + result.used)
  {
    hide FromLayout, ByteSwap, ByteArray.Valid;
    ba.InView();
    var read := ba.Read(n);
    if read.OutOfRange? {
      return Short(0);
    }
    var v := FromLayout(read.value, host);
    if n > 1 && ba.order != host {
      v := ByteSwap(v, n);
    }
    return Parsed(v, n);
  }

  method WriteLength(ba: ByteArray, n: nat, prefix: Prefix, host: Order)
    requires ba.Valid()
    modifies ba, ba.repr
    ensures ba.Valid() && fresh(ba.repr - old(ba.repr)) && ba.order == old(ba.order)
    ensures Wrote(old(ba.View()), EncodeLength(n, prefix, ba.order, host), ba.View())
  {
    hide Pow2, Wrote, VarBytes, Stored, ByteArray.Valid;
    var cut := n % Pow2(8 * PrefixBytes(prefix));
    if prefix.Auto? {
      ba.InView();
      WroteNothing(ba.View());
    } else if prefix == Varint {
      WriteVaruint(ba, cut, 64);
    } else {
      WriteFixed(ba, cut, PrefixBytes(prefix), host);
    }
  }

  method ReadLength(ba: ByteArray, prefix: Prefix, host: Order) returns (result: Parsed<nat>)
    requires ba.Valid()
    modifies ba`position, ba`cur
    ensures ba.Valid() && InRange(old(ba.View()))
    ensures result == DecodeLength(Rest(old(ba.View())), prefix, ba.order, host)
    ensures ba.View() == old(ba.View()).(position := old(ba.position) + result.used)
  {
    hide Pow2, ReadVar, Fetched, ByteArray.Valid;
    if prefix.Auto? {
      ba.InView();
      result := Parsed(ba.size - ba.position, 0);
    } else if prefix == Varint {
      result := ReadVaruint(ba, 64);
    } else {
      result := ReadFixed(ba, PrefixBytes(prefix), host);
    }
  }

  /** write<Type, size>(value). */
  method WriteItem(ba: ByteArray, kind: Kind, value: Value, host: Order)
    requires ba.Valid() && Typed(kind, value)
    modifies ba, ba.repr
    ensures ba.Valid() && fresh(ba.repr - old(ba.repr)) && ba.order == old(ba.order)
    ensures Wrote(old(ba.View()), Encode(kind, value, ba.order, host), ba.View())
  {
    hide Pow2, Wrote, Written, VarBytes, Stored, EncodeLength, ByteArray.Valid;
    match kind
    case Int(n, signed) =>
      WriteFixed(ba, ToUnsigned(value.v, 8 * n), n, host);
    case Var(n, signed) =>
      Widens(value.v, n, signed);
      if signed {
        ZigzagRoundTrip(value.v, VarWidth(n));
        WriteVaruint(ba, ZigzagEncode(value.v, VarWidth(n)), VarWidth(n));
      } else {
        WriteVaruint(ba, value.v, VarWidth(n));
      }
    case Float(n) =>
      WriteFixed(ba, value.v, n, host);
    case Str(prefix) =>
      WriteLength(ba, |value.body|, prefix, host);
      ghost var between := ba.View();
      ba.InView();
      WrittenWrote(between, value.body, ba.baseSize);
      if value.body != [] {
        ba.Write(value.body);
      }
      WroteMore(old(ba.View()), EncodeLength(|value.body|, prefix, ba.order, host), between, value.body, ba.View());
  }

  /** read<Type, size>(). */
  method ReadItem(ba: ByteArray, kind: Kind, host: Order) returns (result: Parsed<Value>)
    requires ba.Valid() && (!kind.Str? ==> kind.bytes > 0)
    modifies ba`position, ba`cur
    ensures ba.Valid() && InRange(old(ba.View()))
    ensures result == Decode(kind, Rest(old(ba.View())), ba.order, host)
    ensures ba.View() == old(ba.View()).(position := old(ba.position) + result.used)
  {
    hide Pow2, ReadVar, Fetched, Cast, DecodeLength, ZigzagDecode, ByteArray.Valid;
    match kind
    case Int(n, signed) =>
      var p := ReadFixed(ba, n, host);
      result := if p.Short? then Short(p.used) else Parsed(Number(Cast(p.value, n, signed)), p.used);
    case Var(n, signed) =>
      var p := ReadVaruint(ba, VarWidth(n));
      result := if p.Short? then Short(p.used)
        else Parsed(Number(Cast(if signed then ZigzagDecode(p.value, VarWidth(n)) else p.value, n, signed)), p.used);
    case Float(n) =>
      var p := ReadFixed(ba, n, host);
      result := if p.Short? then Short(p.used) else Parsed(Number(p.value), p.used);
    case Str(prefix) =>
      var p := ReadLength(ba, prefix, host);
      if p.Short? {
        return Short(p.used);
      }
      if p.value == 0 {
        assert Rest(old(ba.View()))[p.used..p.used] == [];
        return Parsed(Text([]), p.used);
      }
      ghost var input := Rest(old(ba.View()));
      assert Rest(ba.View()) == input[p.used..];
      var read := ba.Read(p.value);
      assert p.used + p.value <= |input| ==> input[p.used..][..p.value] == input[p.used..p.used + p.value];
      result := if read.OutOfRange? then Short(p.used) else Parsed(Text(read.value), p.used + p.value);
  }

  /** Writes every item, in the byte order it asks for. */
  method WriteAll(ba: ByteArray, script: seq<Item>, host: Order)
    requires ba.Valid() && AllTyped(script)
    modifies ba, ba.repr
    ensures ba.Valid() && fresh(ba.repr - old(ba.repr))
    ensures Wrote(old(ba.View()), EncodeAll(script, host), ba.View())
  {
    hide Typed, Wrote, Encode, ByteArray.Valid;
    ba.InView();
    WroteNothing(ba.View());
    var k := 0;
    while k < |script|
      invariant k <= |script| && ba.Valid() && fresh(ba.repr - old(ba.repr))
      invariant Wrote(old(ba.View()), EncodeAll(script[..k], host), ba.View())
    {
      var item := script[k];
      ghost var before := ba.View();
      ba.SetIsLittleEndian(item.order == Little);
      WriteItem(ba, item.kind, item.value, host);
      EncodeOneMore(script, k, host);
      WroteMore(old(ba.View()), EncodeAll(script[..k], host), before,
                Encode(item.kind, item.value, item.order, host), ba.View());
      k := k + 1;
    }
    assert script[..k] == script;
  }

  lemma {:induction false} EncodeOneMore(script: seq<Item>, k: nat, host: Order)
    requires AllTyped(script) && k < |script|
    ensures EncodeAll(script[..k + 1], host)
         == EncodeAll(script[..k], host) + Encode(script[k].kind, script[k].value, script[k].order, host)
  {
    hide Encode, Typed;
    var more, less := script[..k + 1], script[..k];
    if k == 0 {
      assert more[1..] == [];
    } else {
      EncodeOneMore(script[1..], k - 1, host);
      assert more[1..] == script[1..][..k] && less[1..] == script[1..][..k - 1];
    }
  }

  /** The matching reads, up to the first that throws. */
  method ReadAll(ba: ByteArray, script: seq<Item>, host: Order) returns (result: Parsed<seq<Value>>)
    requires ba.Valid() && AllTyped(script)
    modifies ba`position, ba`cur, ba`order
    ensures ba.Valid() && InRange(old(ba.View()))
    ensures result == DecodeAll(script, Rest(old(ba.View())), host)
    ensures ba.View() == old(ba.View()).(position := old(ba.position) + result.used)
    decreases |script|
  {
    hide Decode, DecodeAll, Typed, ByteArray.Valid;
    ba.InView();
    if script == [] {
      NoItems(host, Rest(ba.View()));
      return Parsed([], 0);
    }
    DecodeStep(script, Rest(ba.View()), host);
    WellTyped(script[0].kind, script[0].value);
    ba.SetIsLittleEndian(script[0].order == Little);
    var first := ReadItem(ba, script[0].kind, host);
    if first.Short? {
      return Short(first.used);
    }
    assert Rest(ba.View()) == Rest(old(ba.View()))[first.used..];
    var rest := ReadAll(ba, script[1..], host);
    result := if rest.Short? then Short(first.used + rest.used)
      else Parsed([first.value] + rest.value, first.used + rest.used);
  }

  /** The old data behind the next `n` bytes. */
  ghost function Behind(t: Tape, n: nat): seq<Byte>
    requires InRange(t)
  {
    if t.position + n <= t.size then t.bytes[t.position + n..t.size] else []
  }

  lemma WroteRest(t: Tape, buf: seq<Byte>, r: Tape)
    requires Wrote(t, buf, r)
    ensures r.bytes[t.position..r.size] == buf + Behind(t, |buf|)
  {
    assert r.bytes[t.position..r.size] == r.bytes[t.position..r.position] + r.bytes[r.position..r.size];
  }

  /** A script written over the data at the cursor, and read back from where it began: the
      values return exactly when every string length fits its prefix and nothing, old data
      included, follows a string without one; the cursor is then where the writes left it. */
  method Replay(ba: ByteArray, script: seq<Item>, host: Order) returns (result: Parsed<seq<Value>>)
    requires ba.Valid() && AllTyped(script)
    modifies ba, ba.repr
    ensures ba.Valid() && InRange(old(ba.View()))
    ensures var bytes := EncodeAll(script, host);
      var fits := AllFit(script, host, Behind(old(ba.View()), |bytes|));
      && (result.Parsed? && result.value == Values(script) <==> fits)
      && (fits ==> ba.position == old(ba.position) + |bytes|)
  {
    hide Typed, Fits, AllFit, EncodeAll, DecodeAll, Flat, Behind, ByteArray.Valid;
    var start := ba.position;
    WriteAll(ba, script, host);
    ghost var bytes, written := EncodeAll(script, host), ba.View();
    WroteRest(old(ba.View()), bytes, written);
    ba.InView();
    var sought := ba.SetPosition(start);
    ghost var rest := Behind(old(ba.View()), |bytes|);
    assert Rest(ba.View()) == bytes + rest;
    ScriptRoundTrip(script, host, rest);
    result := ReadAll(ba, script, host);
  }
}
