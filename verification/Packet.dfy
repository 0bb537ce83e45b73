/**
 `Network::Packet`: typed values appended to a byte buffer and read back in the same order. Integers travel in
 network byte order, strings and vectors behind a 32-bit length.
 */
module Packet {
  import opened Bytes
  import opened Common

  /**
   `Integer` takes its width in bytes; `Raw` is a floating point number, which travels as the bytes it has on the
   host; `Tuple` is a run of `<<` or `>>`, `Fixed` a `std::array`.
   */
  datatype Type =
    | Bool
    | Integer(width: nat, signed: bool)
    | Raw(width: nat)
    | String
    | Vector(element: Type)
    | Fixed(element: Type, count: nat)
    | Tuple(elements: seq<Type>)

  datatype Value =
    | BoolValue(b: bool)
    | IntValue(n: int)
    | RawValue(bytes: seq<byte>)
    | StringValue(text: Text)
    | ListValue(values: seq<Value>)

  const U8 := Integer(1, false)
  const U16 := Integer(2, false)
  const U32 := Integer(4, false)
  const U64 := Integer(8, false)
  const FLOAT := Raw(4)
  const DOUBLE := Raw(8)

  // ---------------------------------------------------------------- integers

  function Pow256(w: nat): (p: nat)
    ensures p > 0
  {
    if w == 0 then 1 else 0x100 * Pow256(w - 1)
  }

  function BigEndian(n: nat, w: nat): (bytes: seq<byte>)
    ensures |bytes| == w
  {
    if w == 0 then [] else BigEndian(n / 0x100, w - 1) + [n % 0x100]
  }

  function FromBigEndian(bytes: seq<byte>): nat {
    if bytes == [] then 0 else FromBigEndian(bytes[..|bytes| - 1]) * 0x100 + bytes[|bytes| - 1]
  }

  lemma {:induction false} BigEndianRoundTrip(n: nat, w: nat)
    requires n < Pow256(w)
    ensures FromBigEndian(BigEndian(n, w)) == n
  {
    if w > 0 {
      BigEndianRoundTrip(n / 0x100, w - 1);
      var bytes := BigEndian(n, w);
      assert bytes[..w - 1] == BigEndian(n / 0x100, w - 1);
    }
  }

  /** The bytes of a host integer on a little-endian machine. */
  function LittleEndian(n: nat, w: nat): (bytes: seq<byte>)
    ensures |bytes| == w
  {
    if w == 0 then [] else [n % 0x100] + LittleEndian(n / 0x100, w - 1)
  }

  /** `htonl` on a little-endian machine. */
  function Htonl(x: nat): (r: nat)
    requires x < 0x1_0000_0000
    ensures r < 0x1_0000_0000
  {
    x % 0x100 * 0x100_0000 + x / 0x100 % 0x100 * 0x1_0000 + x / 0x1_0000 % 0x100 * 0x100 + x / 0x100_0000
  }

  /** `htonll` as the source builds it from two `htonl`. */
  function Htonll(x: nat): nat
    requires x < 0x1_0000_0000_0000_0000
  {
    Htonl(x % 0x1_0000_0000) * 0x1_0000_0000 + Htonl(x / 0x1_0000_0000)
  }

  lemma FourDigits(a: byte, b: byte, c: byte, d: byte, n: nat)
    requires n == ((a * 0x100 + b) * 0x100 + c) * 0x100 + d
    ensures LittleEndian(n, 4) == [d, c, b, a] && BigEndian(n, 4) == [a, b, c, d]
  {
    var n1 := (a * 0x100 + b) * 0x100 + c;
    var n2 := a * 0x100 + b;
    assert n / 0x100 == n1 && n % 0x100 == d;
    assert n1 / 0x100 == n2 && n1 % 0x100 == c;
    assert n2 / 0x100 == a && n2 % 0x100 == b;
    assert LittleEndian(a, 1) == [a] && BigEndian(a, 1) == [a];
    assert LittleEndian(n2, 2) == [b, a] && BigEndian(n2, 2) == [a, b];
    assert LittleEndian(n1, 3) == [c, b, a] && BigEndian(n1, 3) == [a, b, c];
  }

  lemma HtonlDigits(a: byte, b: byte, c: byte, d: byte, x: nat)
    requires x == ((a * 0x100 + b) * 0x100 + c) * 0x100 + d
    ensures x < 0x1_0000_0000 && Htonl(x) == ((d * 0x100 + c) * 0x100 + b) * 0x100 + a
  {
    assert x / 0x100_0000 == a;
    assert x / 0x1_0000 == a * 0x100 + b && (a * 0x100 + b) % 0x100 == b;
    assert x / 0x100 == (a * 0x100 + b) * 0x100 + c && x / 0x100 % 0x100 == c;
  }

  lemma HtonlBytes(x: nat)
    requires x < 0x1_0000_0000
    ensures LittleEndian(Htonl(x), 4) == BigEndian(x, 4)
  {
    var n1 := x / 0x100;
    var n2 := n1 / 0x100;
    var a, b, c, d := n2 / 0x100, n2 % 0x100, n1 % 0x100, x % 0x100;
    HtonlDigits(a, b, c, d, x);
    FourDigits(a, b, c, d, x);
    FourDigits(d, c, b, a, Htonl(x));
  }

  lemma LastDigit(n: nat, high: nat, lo: nat)
    requires n == 0x100 * high + lo
    ensures n / 0x100 == high + lo / 0x100 && n % 0x100 == lo % 0x100
  {
  }

  lemma {:induction false} LittleEndianSplit(hi: nat, lo: nat, v: nat, w: nat)
    requires lo < Pow256(v)
    ensures LittleEndian(hi * Pow256(v) + lo, v + w) == LittleEndian(lo, v) + LittleEndian(hi, w)
    decreases v
  {
    if v > 0 {
      var p := Pow256(v - 1);
      var n := hi * Pow256(v) + lo;
      Scales(0x100, hi, p, hi * p);
      LastDigit(n, hi * p, lo);
      LittleEndianSplit(hi, lo / 0x100, v - 1, w);
    }
  }

  lemma {:induction false} BigEndianSplit(hi: nat, lo: nat, v: nat, w: nat)
    requires lo < Pow256(v)
    ensures BigEndian(hi * Pow256(v) + lo, v + w) == BigEndian(hi, w) + BigEndian(lo, v)
    decreases v
  {
    if v > 0 {
      var p := Pow256(v - 1);
      var n := hi * Pow256(v) + lo;
      Scales(0x100, hi, p, hi * p);
      LastDigit(n, hi * p, lo);
      BigEndianSplit(hi, lo / 0x100, v - 1, w);
    }
  }

  lemma Pow256Of4()
    ensures Pow256(4) == 0x1_0000_0000 && Pow256(1) == 0x100
  {
    assert Pow256(2) == 0x1_0000;
  }

  /** The 64-bit swap built from two 32-bit ones puts all eight bytes in network order. */
  lemma HtonllBytes(x: nat)
    requires x < 0x1_0000_0000_0000_0000
    ensures LittleEndian(Htonll(x), 8) == BigEndian(x, 8)
  {
    HtonlBytes(x / 0x1_0000_0000);
    HtonlBytes(x % 0x1_0000_0000);
    SwapWords(x / 0x1_0000_0000, x % 0x1_0000_0000, Htonl(x / 0x1_0000_0000), Htonl(x % 0x1_0000_0000), x, Htonll(x));
  }

  lemma SwapWords(hi: nat, lo: nat, h: nat, l: nat, x: nat, swapped: nat)
    requires lo < 0x1_0000_0000 && h < 0x1_0000_0000
    requires LittleEndian(h, 4) == BigEndian(hi, 4) && LittleEndian(l, 4) == BigEndian(lo, 4)
    requires x == hi * 0x1_0000_0000 + lo && swapped == l * 0x1_0000_0000 + h
    ensures LittleEndian(swapped, 8) == BigEndian(x, 8)
  {
    Pow256Of4();
    SwapHalves(hi, lo, h, l, 4);
  }

  lemma SwapHalves(hi: nat, lo: nat, h: nat, l: nat, w: nat)
    requires lo < Pow256(w) && h < Pow256(w)
    requires LittleEndian(h, w) == BigEndian(hi, w) && LittleEndian(l, w) == BigEndian(lo, w)
    ensures LittleEndian(l * Pow256(w) + h, w + w) == BigEndian(hi * Pow256(w) + lo, w + w)
  {
    LittleEndianSplit(l, h, w, w);
    BigEndianSplit(hi, lo, w, w);
  }

  /** Two's complement. */
  function ToUnsigned(n: int, w: nat): (u: nat)
    ensures u < Pow256(w)
  {
    n % Pow256(w)
  }

  function FromUnsigned(u: nat, w: nat, signed: bool): int {
    if signed && 2 * u >= Pow256(w) then u - Pow256(w) else u
  }

  predicate InRange(n: int, w: nat, signed: bool) {
    if signed then 0 <= 2 * n + Pow256(w) < 2 * Pow256(w) else 0 <= n < Pow256(w)
  }

  lemma UnsignedRoundTrip(n: int, w: nat, signed: bool)
    requires InRange(n, w, signed)
    ensures FromUnsigned(ToUnsigned(n, w), w, signed) == n
  {
    SmallMod(n, Pow256(w));
  }

  lemma SmallMod(n: int, p: nat)
    requires 0 <= n + p && n < p
    ensures n % p == if n < 0 then n + p else n
  {
    if n < 0 {
      assert n == -1 * p + (n + p);
    }
  }

  // ---------------------------------------------------------------- encoding

  /** The values of a type that fit the wire: lengths below 2^32, integers in range. */
  predicate HasType(v: Value, t: Type)
    decreases t, 0
  {
    match t
    case Bool => v.BoolValue?
    case Integer(w, signed) => v.IntValue? && InRange(v.n, w, signed)
    case Raw(w) => v.RawValue? && |v.bytes| == w
    case String => v.StringValue? && |v.text| < 0x1_0000_0000
    case Vector(e) => v.ListValue? && |v.values| < 0x1_0000_0000 && EachHasType(v.values, e)
    case Fixed(e, count) => v.ListValue? && |v.values| == count && EachHasType(v.values, e)
    case Tuple(ts) => v.ListValue? && AllHaveTypes(v.values, ts)
  }

  predicate EachHasType(vs: seq<Value>, e: Type)
    decreases e, 1 + |vs|
  {
    vs == [] || (HasType(vs[0], e) && EachHasType(vs[1..], e))
  }

  predicate AllHaveTypes(vs: seq<Value>, ts: seq<Type>)
    decreases ts, 0
  {
    if ts == [] then vs == [] else vs != [] && HasType(vs[0], ts[0]) && AllHaveTypes(vs[1..], ts[1..])
  }

  /** What `<<` appends. */
  function Encode(v: Value, t: Type): seq<byte>
    requires HasType(v, t)
    decreases t, 0
  {
    match t
    case Bool => BigEndian(if v.b then 1 else 0, 1)
    case Integer(w, _) => BigEndian(ToUnsigned(v.n, w), w)
    case Raw(_) => v.bytes
    case String => BigEndian(|v.text|, 4) + v.text
    case Vector(e) => BigEndian(|v.values|, 4) + EncodeEach(v.values, e)
    case Fixed(e, _) => EncodeEach(v.values, e)
    case Tuple(ts) => EncodeAll(v.values, ts)
  }

  function EncodeEach(vs: seq<Value>, e: Type): seq<byte>
    requires EachHasType(vs, e)
    decreases e, 1 + |vs|
  {
    if vs == [] then [] else Encode(vs[0], e) + EncodeEach(vs[1..], e)
  }

  function EncodeAll(vs: seq<Value>, ts: seq<Type>): seq<byte>
    requires AllHaveTypes(vs, ts)
    decreases ts, 0
  {
    if ts == [] then [] else Encode(vs[0], ts[0]) + EncodeAll(vs[1..], ts[1..])
  }

  // ---------------------------------------------------------------- decoding

  datatype Read<+T> = Invalid | Got(value: T, next: nat)

  /** `CheckSize` and `Read`. */
  function Take(data: seq<byte>, pos: nat, size: nat): (r: Read<seq<byte>>)
    ensures r.Got? ==> |r.value| == size && r.next == pos + size <= |data|
  {
    if pos + size <= |data| then Got(data[pos..pos + size], pos + size) else Invalid
  }

  function TakeInteger(data: seq<byte>, pos: nat, w: nat): Read<nat> {
    match Take(data, pos, w)
    case Invalid => Invalid
    case Got(bytes, next) => Got(FromBigEndian(bytes), next)
  }

  /** What `>>` extracts at `pos`; `Invalid` is a packet that has become invalid. */
  function Decode(t: Type, data: seq<byte>, pos: nat): Read<Value>
    decreases t, 0
  {
    match t
    case Bool =>
      (match TakeInteger(data, pos, 1) case Invalid => Invalid case Got(u, next) => Got(BoolValue(u != 0), next))
    case Integer(w, signed) =>
      (match TakeInteger(data, pos, w) case Invalid => Invalid case Got(u, next) => Got(IntValue(FromUnsigned(u, w, signed)), next))
    case Raw(w) =>
      (match Take(data, pos, w) case Invalid => Invalid case Got(bytes, next) => Got(RawValue(bytes), next))
    case String =>
      (match TakeInteger(data, pos, 4)
       case Invalid => Invalid
       case Got(length, next) =>
         if length == 0 then Got(StringValue([]), next)
         else match Take(data, next, length) case Invalid => Invalid case Got(text, after) => Got(StringValue(text), after))
    case Vector(e) =>
      (match TakeInteger(data, pos, 4)
       case Invalid => Invalid
       case Got(size, next) =>
         match DecodeEach(e, size, data, next) case Invalid => Invalid case Got(vs, after) => Got(ListValue(vs), after))
    case Fixed(e, count) =>
      (match DecodeEach(e, count, data, pos) case Invalid => Invalid case Got(vs, next) => Got(ListValue(vs), next))
    case Tuple(ts) =>
      (match DecodeAll(ts, data, pos) case Invalid => Invalid case Got(vs, next) => Got(ListValue(vs), next))
  }

  function DecodeEach(e: Type, n: nat, data: seq<byte>, pos: nat): Read<seq<Value>>
    decreases e, 1 + n
  {
    if n == 0 then Got([], pos)
    else
      match Decode(e, data, pos)
      case Invalid => Invalid
      case Got(v, next) =>
        match DecodeEach(e, n - 1, data, next) case Invalid => Invalid case Got(vs, after) => Got([v] + vs, after)
  }

  function DecodeAll(ts: seq<Type>, data: seq<byte>, pos: nat): Read<seq<Value>>
    decreases ts, 0
  {
    if ts == [] then Got([], pos)
    else
      match Decode(ts[0], data, pos)
      case Invalid => Invalid
      case Got(v, next) =>
        match DecodeAll(ts[1..], data, next) case Invalid => Invalid case Got(vs, after) => Got([v] + vs, after)
  }

  // ---------------------------------------------------------------- round trip

  /** `bytes` stand in `data` at `pos`. */
  predicate Holds(data: seq<byte>, pos: nat, bytes: seq<byte>) {
    pos + |bytes| <= |data| && data[pos..pos + |bytes|] == bytes
  }

  lemma HoldsConcat(data: seq<byte>, pos: nat, a: seq<byte>, b: seq<byte>)
    requires Holds(data, pos, a + b)
    ensures Holds(data, pos, a) && Holds(data, pos + |a|, b)
  {
    assert data[pos..pos + |a + b|][..|a|] == a && data[pos..pos + |a + b|][|a|..] == b;
  }

  lemma TakeIntegerHolds(data: seq<byte>, pos: nat, n: nat, w: nat)
    requires n < Pow256(w) && Holds(data, pos, BigEndian(n, w))
    ensures TakeInteger(data, pos, w) == Got(n, pos + w)
  {
    BigEndianRoundTrip(n, w);
  }

  lemma SizeReadsBack(n: nat, data: seq<byte>, pos: nat)
    requires n < 0x1_0000_0000 && Holds(data, pos, BigEndian(n, 4))
    ensures TakeInteger(data, pos, 4) == Got(n, pos + 4)
  {
    Pow256Of4();
    TakeIntegerHolds(data, pos, n, 4);
  }

  lemma BoolReadsBack(b: bool, data: seq<byte>, pos: nat)
    requires Holds(data, pos, Encode(BoolValue(b), Bool))
    ensures Decode(Bool, data, pos) == Got(BoolValue(b), pos + 1)
  {
    Pow256Of4();
    TakeIntegerHolds(data, pos, if b then 1 else 0, 1);
  }

  lemma IntegerReadsBack(n: int, w: nat, signed: bool, data: seq<byte>, pos: nat)
    requires InRange(n, w, signed) && Holds(data, pos, BigEndian(ToUnsigned(n, w), w))
    ensures Decode(Integer(w, signed), data, pos) == Got(IntValue(n), pos + w)
  {
    TakeIntegerHolds(data, pos, ToUnsigned(n, w), w);
    UnsignedRoundTrip(n, w, signed);
  }

  lemma StringReadsBack(text: Text, data: seq<byte>, pos: nat)
    requires |text| < 0x1_0000_0000 && Holds(data, pos, BigEndian(|text|, 4) + text)
    ensures Decode(String, data, pos) == Got(StringValue(text), pos + 4 + |text|)
  {
    HoldsConcat(data, pos, BigEndian(|text|, 4), text);
    SizeReadsBack(|text|, data, pos);
  }

  /** A vector, once its elements are known to read back. */
  lemma VectorReadsBack(vs: seq<Value>, e: Type, data: seq<byte>, pos: nat, end: nat)
    requires |vs| < 0x1_0000_0000 && Holds(data, pos, BigEndian(|vs|, 4)) && DecodeEach(e, |vs|, data, pos + 4) == Got(vs, end)
    ensures Decode(Vector(e), data, pos) == Got(ListValue(vs), end)
  {
    SizeReadsBack(|vs|, data, pos);
  }

  /** Wherever the encoding of a value stands in a packet, it reads back as that value and ends where it ends. */
  lemma {:induction false} DecodeInvertsEncode(v: Value, t: Type, data: seq<byte>, pos: nat)
    requires HasType(v, t) && Holds(data, pos, Encode(v, t))
    ensures Decode(t, data, pos) == Got(v, pos + |Encode(v, t)|)
    decreases t, 0
  {
    match t {
      case Bool => BoolReadsBack(v.b, data, pos);
      case Integer(w, signed) => IntegerReadsBack(v.n, w, signed, data, pos);
      case Raw(_) =>
      case String => StringReadsBack(v.text, data, pos);
      case Vector(e) =>
        HoldsConcat(data, pos, BigEndian(|v.values|, 4), EncodeEach(v.values, e));
        DecodeInvertsEncodeEach(v.values, e, data, pos + 4);
        VectorReadsBack(v.values, e, data, pos, pos + 4 + |EncodeEach(v.values, e)|);
      case Fixed(e, _) => DecodeInvertsEncodeEach(v.values, e, data, pos);
      case Tuple(ts) => DecodeInvertsEncodeAll(v.values, ts, data, pos);
    }
  }

  lemma {:induction false} DecodeInvertsEncodeEach(vs: seq<Value>, e: Type, data: seq<byte>, pos: nat)
    requires EachHasType(vs, e) && Holds(data, pos, EncodeEach(vs, e))
    ensures DecodeEach(e, |vs|, data, pos) == Got(vs, pos + |EncodeEach(vs, e)|)
    decreases e, 1 + |vs|
  {
    if vs != [] {
      HoldsConcat(data, pos, Encode(vs[0], e), EncodeEach(vs[1..], e));
      DecodeInvertsEncode(vs[0], e, data, pos);
      DecodeInvertsEncodeEach(vs[1..], e, data, pos + |Encode(vs[0], e)|);
      assert vs == [vs[0]] + vs[1..];
    }
  }

  lemma {:induction false} DecodeInvertsEncodeAll(vs: seq<Value>, ts: seq<Type>, data: seq<byte>, pos: nat)
    requires AllHaveTypes(vs, ts) && Holds(data, pos, EncodeAll(vs, ts))
    ensures DecodeAll(ts, data, pos) == Got(vs, pos + |EncodeAll(vs, ts)|)
    decreases ts, 0
  {
    if ts != [] {
      HoldsConcat(data, pos, Encode(vs[0], ts[0]), EncodeAll(vs[1..], ts[1..]));
      DecodeInvertsEncode(vs[0], ts[0], data, pos);
      DecodeInvertsEncodeAll(vs[1..], ts[1..], data, pos + |Encode(vs[0], ts[0])|);
      assert vs == [vs[0]] + vs[1..];
    }
  }

  // ---------------------------------------------------------------- skipping fields

  predicate EachTyped(vs: seq<Value>, ts: seq<Type>) {
    |vs| == |ts| && forall i :: 0 <= i < |ts| ==> HasType(vs[i], ts[i])
  }

  lemma {:induction false} AllAreTyped(vs: seq<Value>, ts: seq<Type>)
    requires AllHaveTypes(vs, ts)
    ensures EachTyped(vs, ts)
    decreases |ts|
  {
    if ts != [] {
      AllAreTyped(vs[1..], ts[1..]);
      assert forall i :: 1 <= i < |ts| ==> vs[i] == vs[1..][i - 1] && ts[i] == ts[1..][i - 1];
    }
  }

  /** How many bytes the first `k` fields take. */
  function SizeBefore(vs: seq<Value>, ts: seq<Type>, k: nat): nat
    requires EachTyped(vs, ts) && k <= |ts|
  {
    if k == 0 then 0 else SizeBefore(vs, ts, k - 1) + |Encode(vs[k - 1], ts[k - 1])|
  }

  /** The first field and, behind its `size` bytes, the others. */
  lemma FirstStands(data: seq<byte>, pos: nat, vs: seq<Value>, ts: seq<Type>, size: nat)
    requires AllHaveTypes(vs, ts) && ts != [] && Holds(data, pos, EncodeAll(vs, ts)) && |Encode(vs[0], ts[0])| == size
    ensures Holds(data, pos, Encode(vs[0], ts[0]))
    ensures AllHaveTypes(vs[1..], ts[1..]) && Holds(data, pos + size, EncodeAll(vs[1..], ts[1..]))
  {
    HoldsConcat(data, pos, Encode(vs[0], ts[0]), EncodeAll(vs[1..], ts[1..]));
  }

  lemma {:induction false} RestStands(data: seq<byte>, pos: nat, vs: seq<Value>, ts: seq<Type>, k: nat)
    requires EachTyped(vs, ts) && AllHaveTypes(vs, ts) && k <= |ts| && Holds(data, pos, EncodeAll(vs, ts))
    ensures AllHaveTypes(vs[k..], ts[k..]) && Holds(data, pos + SizeBefore(vs, ts, k), EncodeAll(vs[k..], ts[k..]))
  {
    if k > 0 {
      RestStands(data, pos, vs, ts, k - 1);
      NextRest(data, pos + SizeBefore(vs, ts, k - 1), vs, ts, k - 1, k);
    } else {
      assert vs[0..] == vs && ts[0..] == ts;
    }
  }

  lemma NextRest(data: seq<byte>, at: nat, vs: seq<Value>, ts: seq<Type>, k: nat, next: nat)
    requires EachTyped(vs, ts) && k < |ts| && next == k + 1
    requires AllHaveTypes(vs[k..], ts[k..]) && Holds(data, at, EncodeAll(vs[k..], ts[k..]))
    ensures Holds(data, at, Encode(vs[k], ts[k]))
    ensures AllHaveTypes(vs[next..], ts[next..])
    ensures Holds(data, at + |Encode(vs[k], ts[k])|, EncodeAll(vs[next..], ts[next..]))
  {
    assert vs[k..][1..] == vs[next..] && ts[k..][1..] == ts[next..];
    FirstStands(data, at, vs[k..], ts[k..], |Encode(vs[k], ts[k])|);
  }

  /** Skipping the fields before it by their sizes leads to any field. */
  lemma FieldStands(data: seq<byte>, pos: nat, vs: seq<Value>, ts: seq<Type>, k: nat)
    requires AllHaveTypes(vs, ts) && k < |ts| && Holds(data, pos, EncodeAll(vs, ts))
    ensures EachTyped(vs, ts) && Holds(data, pos + SizeBefore(vs, ts, k), Encode(vs[k], ts[k]))
  {
    AllAreTyped(vs, ts);
    RestStands(data, pos, vs, ts, k);
    NextRest(data, pos + SizeBefore(vs, ts, k), vs, ts, k, k + 1);
  }

  // ---------------------------------------------------------------- the bytes on the wire

  lemma {:induction false} BigEndianAt(n: nat, w: nat, k: nat)
    requires k < w
    ensures BigEndian(n, w)[k] == n / Pow256(w - 1 - k) % 0x100
    decreases w
  {
    if k < w - 1 {
      BigEndianAt(n / 0x100, w - 1, k);
      NestedQuotient(n, Pow256(w - 2 - k));
    }
  }

  lemma NestedQuotient(n: nat, p: nat)
    requires p > 0
    ensures n / 0x100 / p == n / (0x100 * p)
  {
    var q, r := n / 0x100 / p, n / 0x100 % p;
    var low := n % 0x100;
    assert n / 0x100 == q * p + r;
    assert n == q * (0x100 * p) + (0x100 * r + low);
    assert 0 <= 0x100 * r + low < 0x100 * p;
    QuotientIs(n, 0x100 * p, q, 0x100 * r + low);
  }

  /** A size in front of what follows it: four bytes, the most significant first. */
  function SizeBytes(n: nat): seq<byte> {
    [n / 0x100_0000 % 0x100, n / 0x1_0000 % 0x100, n / 0x100 % 0x100, n % 0x100]
  }

  lemma SizesAreFourBytes(n: nat)
    ensures BigEndian(n, 4) == SizeBytes(n)
  {
    assert Pow256(1) == 0x100 && Pow256(2) == 0x1_0000 && Pow256(3) == 0x100_0000;
    forall k: nat | k < 4
      ensures BigEndian(n, 4)[k] == SizeBytes(n)[k]
    {
      BigEndianAt(n, 4, k);
    }
  }

  /** Truth is one, falsehood zero, and any byte but zero reads as truth. */
  lemma BoolOnTheWire(b: bool, data: seq<byte>, pos: nat)
    ensures Encode(BoolValue(b), Bool) == [if b then 1 else 0]
    ensures pos < |data| ==> Decode(Bool, data, pos) == Got(BoolValue(data[pos] != 0), pos + 1)
  {
    assert BigEndian(if b then 1 else 0, 1) == [if b then 1 else 0];
    if pos < |data| {
      assert data[pos..pos + 1] == [data[pos]];
      assert FromBigEndian([]) == 0;
      assert [data[pos]][..0] == [];
    }
  }

  /** Byte `k` of an integer of `w` bytes has weight 256^(w - 1 - k), in two's complement. */
  lemma IntegerOnTheWire(n: int, w: nat, signed: bool, k: nat)
    requires InRange(n, w, signed) && k < w
    ensures |Encode(IntValue(n), Integer(w, signed))| == w
    ensures Encode(IntValue(n), Integer(w, signed))[k] == (if n < 0 then n + Pow256(w) else n) / Pow256(w - 1 - k) % 0x100
  {
    SmallMod(n, Pow256(w));
    BigEndianAt(ToUnsigned(n, w), w, k);
  }

  /** Strings and vectors stand behind their length, arrays do not. */
  lemma ListsOnTheWire(text: Text, vs: seq<Value>, e: Type)
    requires |text| < 0x1_0000_0000 && |vs| < 0x1_0000_0000 && EachHasType(vs, e)
    ensures Encode(StringValue(text), String) == SizeBytes(|text|) + text
    ensures Encode(ListValue(vs), Fixed(e, |vs|)) == EncodeEach(vs, e)
    ensures Encode(ListValue(vs), Vector(e)) == SizeBytes(|vs|) + EncodeEach(vs, e)
  {
    SizesAreFourBytes(|text|);
    SizesAreFourBytes(|vs|);
  }

  lemma {:induction false} EachSnocTyped(vs: seq<Value>, v: Value, e: Type)
    requires EachHasType(vs, e) && HasType(v, e)
    ensures EachHasType(vs + [v], e)
    decreases |vs|
  {
    if vs == [] {
      assert vs + [v] == [v];
      assert EachHasType([v][1..], e);
    } else {
      EachSnocTyped(vs[1..], v, e);
      assert (vs + [v])[0] == vs[0] && (vs + [v])[1..] == vs[1..] + [v];
    }
  }

  /** Elements follow one another in order. */
  lemma {:induction false} ElementsInOrder(vs: seq<Value>, v: Value, e: Type)
    requires EachHasType(vs, e) && HasType(v, e)
    ensures EachHasType(vs + [v], e) && EncodeEach([], e) == []
    ensures EncodeEach(vs + [v], e) == EncodeEach(vs, e) + Encode(v, e)
    decreases |vs|
  {
    EachSnocTyped(vs, v, e);
    if vs == [] {
      assert vs + [v] == [v];
      assert EncodeEach([v], e) == Encode(v, e) + EncodeEach([], e);
    } else {
      ElementsInOrder(vs[1..], v, e);
      assert (vs + [v])[0] == vs[0] && (vs + [v])[1..] == vs[1..] + [v];
    }
  }

  // ---------------------------------------------------------------- C strings

  /**
   `>>` into a `char*` whose buffer holds `before`: an empty string leaves the buffer as it is, any other is
   terminated and so ends at its first zero.
   */
  function DecodeCString(data: seq<byte>, pos: nat, before: Text): Read<Text> {
    match TakeInteger(data, pos, 4)
    case Invalid => Invalid
    case Got(length, next) =>
      if length == 0 then Got(before, next)
      else match Take(data, next, length) case Invalid => Invalid case Got(text, after) => Got(UpToZero(text), after)
  }

  /** So a C string reads back, except an empty one into a buffer that is not empty. */
  lemma CStringReadsBackIff(text: Text, data: seq<byte>, pos: nat, before: Text)
    requires HasType(StringValue(text), String) && 0 !in text && Holds(data, pos, Encode(StringValue(text), String))
    ensures DecodeCString(data, pos, before) == Got(text, pos + |Encode(StringValue(text), String)|) <==> text != [] || before == []
  {
    HoldsConcat(data, pos, BigEndian(|text|, 4), text);
    SizeReadsBack(|text|, data, pos);
  }

  /** For example, the empty string read into a buffer that holds the letter A. */
  lemma EmptyCStringIsNotRead()
    ensures DecodeCString(Encode(StringValue([]), String), 0, [65]) == Got([65], 4)
  {
    SizeReadsBack(0, Encode(StringValue([]), String), 0);
  }

  // ---------------------------------------------------------------- the class

  /** `more` read after `first`. */
  function Prepend(first: seq<Value>, more: Read<seq<Value>>): Read<seq<Value>> {
    match more case Invalid => Invalid case Got(vs, next) => Got(first + vs, next)
  }

  lemma PrependNothing(r: Read<seq<Value>>)
    ensures Prepend([], r) == r
  {
    assert r.Got? ==> [] + r.value == r.value;
  }

  lemma PrependStep(first: seq<Value>, e: Type, n: nat, data: seq<byte>, pos: nat)
    requires n > 0
    ensures Prepend(first, DecodeEach(e, n, data, pos)) ==
            match Decode(e, data, pos)
            case Invalid => Invalid
            case Got(v, next) => Prepend(first + [v], DecodeEach(e, n - 1, data, next))
  {
    var d := DecodeEach(e, n, data, pos);
    if d.Got? {
      assert first + d.value == (first + [d.value[0]]) + d.value[1..];
    }
  }

  class PacketBuffer {
    var data: seq<byte>
    var readPos: nat
    var isValid: bool

    constructor ()
      ensures data == [] && readPos == 0 && isValid
    {
      data, readPos, isValid := [], 0, true;
    }

    method Append(bytes: seq<byte>)
      modifies this`data
      ensures data == old(data) + bytes
    {
      data := data + bytes;
    }

    method CheckSize(size: nat) returns (ok: bool)
      modifies this`isValid
      ensures ok == isValid == (old(isValid) && readPos + size <= |data|)
    {
      isValid := isValid && readPos + size <= |data|;
      ok := isValid;
    }

    /** `operator<<`. */
    method Write(v: Value, t: Type)
      requires HasType(v, t)
      modifies this`data
      ensures data == old(data) + Encode(v, t)
      decreases t, 0
    {
      match t {
        case Bool => Append(BigEndian(if v.b then 1 else 0, 1));
        case Integer(w, _) => Append(BigEndian(ToUnsigned(v.n, w), w));
        case Raw(_) => Append(v.bytes);
        case String =>
          Append(BigEndian(|v.text|, 4));
          if |v.text| > 0 {
            Append(v.text);
          }
        case Vector(e) =>
          Append(BigEndian(|v.values|, 4));
          WriteEach(v.values, e);
        case Fixed(e, _) => WriteEach(v.values, e);
        case Tuple(ts) => WriteAll(v.values, ts);
      }
    }

    method WriteEach(vs: seq<Value>, e: Type)
      requires EachHasType(vs, e)
      modifies this`data
      ensures data == old(data) + EncodeEach(vs, e)
      decreases e, 1
    {
      var i := 0;
      while i < |vs|
        invariant 0 <= i <= |vs| && EachHasType(vs[i..], e)
        invariant data + EncodeEach(vs[i..], e) == old(data) + EncodeEach(vs, e)
      {
        assert vs[i..][0] == vs[i] && vs[i..][1..] == vs[i + 1..];
        Write(vs[i], e);
        i := i + 1;
      }
    }

    method WriteAll(vs: seq<Value>, ts: seq<Type>)
      requires AllHaveTypes(vs, ts)
      modifies this`data
      ensures data == old(data) + EncodeAll(vs, ts)
      decreases ts, 0
    {
      if ts != [] {
        Write(vs[0], ts[0]);
        WriteAll(vs[1..], ts[1..]);
      }
    }

    method ReadBytes(size: nat) returns (bytes: seq<byte>)
      modifies this`readPos, this`isValid
      ensures isValid == (old(isValid) && Take(data, old(readPos), size).Got?)
      ensures isValid ==> Take(data, old(readPos), size) == Got(bytes, readPos)
    {
      bytes := [];
      var ok := CheckSize(size);
      if ok {
        bytes := data[readPos..readPos + size];
        readPos := readPos + size;
      }
    }

    /** `operator>>`. Once the packet is invalid it stays so and what is extracted means nothing. */
    method Extract(t: Type) returns (v: Value)
      modifies this`readPos, this`isValid
      ensures isValid == (old(isValid) && Decode(t, data, old(readPos)).Got?)
      ensures isValid ==> Decode(t, data, old(readPos)) == Got(v, readPos)
      decreases t, 0
    {
      match t {
        case Bool =>
          var bytes := ReadBytes(1);
          v := BoolValue(FromBigEndian(bytes) != 0);
        case Integer(w, signed) =>
          var bytes := ReadBytes(w);
          v := IntValue(FromUnsigned(FromBigEndian(bytes), w, signed));
        case Raw(w) =>
          var bytes := ReadBytes(w);
          v := RawValue(bytes);
        case String =>
          var bytes := ReadBytes(4);
          var length := FromBigEndian(bytes);
          v := StringValue([]);
          if length > 0 {
            var text := ReadBytes(length);
            v := StringValue(text);
          }
        case Vector(e) =>
          var bytes := ReadBytes(4);
          var vs := ExtractEach(e, FromBigEndian(bytes));
          v := ListValue(vs);
        case Fixed(e, count) =>
          var vs := ExtractEach(e, count);
          v := ListValue(vs);
        case Tuple(ts) =>
          var vs := ExtractAll(ts);
          v := ListValue(vs);
      }
    }

    method ExtractEach(e: Type, n: nat) returns (vs: seq<Value>)
      modifies this`readPos, this`isValid
      ensures isValid == (old(isValid) && DecodeEach(e, n, data, old(readPos)).Got?)
      ensures isValid ==> DecodeEach(e, n, data, old(readPos)) == Got(vs, readPos)
      decreases e, 1
    {
      vs := [];
      var i := 0;
      PrependNothing(DecodeEach(e, n, data, readPos));
      while i < n
        invariant 0 <= i <= n
        invariant isValid ==> old(isValid) && DecodeEach(e, n, data, old(readPos)) == Prepend(vs, DecodeEach(e, n - i, data, readPos))
        invariant !isValid ==> !old(isValid) || DecodeEach(e, n, data, old(readPos)).Invalid?
      {
        PrependStep(vs, e, n - i, data, readPos);
        var v := Extract(e);
        vs := vs + [v];
        i := i + 1;
      }
      assert vs + [] == vs;
    }

    method ExtractAll(ts: seq<Type>) returns (vs: seq<Value>)
      modifies this`readPos, this`isValid
      ensures isValid == (old(isValid) && DecodeAll(ts, data, old(readPos)).Got?)
      ensures isValid ==> DecodeAll(ts, data, old(readPos)) == Got(vs, readPos)
      decreases ts, 0
    {
      vs := [];
      if ts != [] {
        var v := Extract(ts[0]);
        var rest := ExtractAll(ts[1..]);
        vs := [v] + rest;
      }
    }

    /** `operator<<` of a `const char*` that points to `chars`; `strlen` finds the first zero. */
    method WriteCString(chars: Text)
      requires HasType(StringValue(UpToZero(chars)), String)
      modifies this`data
      ensures data == old(data) + Encode(StringValue(UpToZero(chars)), String)
    {
      var length := ZeroAt(chars);
      Append(BigEndian(length, 4));
      Append(chars[..length]);
    }

    method ExtractCString(before: Text) returns (text: Text)
      modifies this`readPos, this`isValid
      ensures isValid == (old(isValid) && DecodeCString(data, old(readPos), before).Got?)
      ensures isValid ==> DecodeCString(data, old(readPos), before) == Got(text, readPos)
    {
      var bytes := ReadBytes(4);
      var length := FromBigEndian(bytes);
      text := before;
      if length > 0 {
        var chars := ReadBytes(length);
        text := UpToZero(chars);
      }
    }

    /** Skips without a check: a position beyond the end shows at the next read. */
    method IgnoreBytes(length: nat)
      modifies this`readPos
      ensures readPos == old(readPos) + length
    {
      readPos := readPos + length;
    }

    method EndOfPacket() returns (atEnd: bool)
      ensures atEnd == (readPos >= |data|)
    {
      atEnd := readPos >= |data|;
    }
  }

  /** Any list of typed values written to an empty packet reads back equal, up to the end of the packet. */
  lemma WrittenReadsBack(vs: seq<Value>, ts: seq<Type>)
    requires AllHaveTypes(vs, ts)
    ensures DecodeAll(ts, EncodeAll(vs, ts), 0) == Got(vs, |EncodeAll(vs, ts)|)
  {
    DecodeInvertsEncodeAll(vs, ts, EncodeAll(vs, ts), 0);
  }

  /** Reading goes as far as the packet reaches: cut anywhere, what was written no longer reads back. */
  lemma {:induction false} CutPacketIsInvalid(vs: seq<Value>, ts: seq<Type>, cut: nat)
    requires AllHaveTypes(vs, ts) && cut < |EncodeAll(vs, ts)|
    ensures DecodeAll(ts, EncodeAll(vs, ts)[..cut], 0).Invalid?
  {
    CutAll(vs, ts, EncodeAll(vs, ts), 0, EncodeAll(vs, ts)[..cut]);
  }

  /** Data that ends before the encoding does is rejected. */
  lemma {:induction false} CutOne(v: Value, t: Type, data: seq<byte>, pos: nat, short: seq<byte>)
    requires HasType(v, t) && Holds(data, pos, Encode(v, t)) && short <= data && pos <= |short| < pos + |Encode(v, t)|
    ensures Decode(t, short, pos).Invalid?
    decreases t, 0
  {
    Pow256Of4();
    match t {
      case Bool =>
      case Integer(w, signed) =>
      case Raw(_) =>
      case String =>
        if pos + 4 <= |short| {
          HoldsConcat(data, pos, BigEndian(|v.text|, 4), v.text);
          HoldsShort(data, pos, BigEndian(|v.text|, 4), short);
          TakeIntegerHolds(short, pos, |v.text|, 4);
        }
      case Vector(e) =>
        if pos + 4 <= |short| {
          HoldsConcat(data, pos, BigEndian(|v.values|, 4), EncodeEach(v.values, e));
          HoldsShort(data, pos, BigEndian(|v.values|, 4), short);
          TakeIntegerHolds(short, pos, |v.values|, 4);
          CutEach(v.values, e, data, pos + 4, short);
        }
      case Fixed(e, _) => CutEach(v.values, e, data, pos, short);
      case Tuple(ts) => CutAll(v.values, ts, data, pos, short);
    }
  }

  lemma HoldsShort(data: seq<byte>, pos: nat, bytes: seq<byte>, short: seq<byte>)
    requires Holds(data, pos, bytes) && short <= data && pos + |bytes| <= |short|
    ensures Holds(short, pos, bytes)
  {
  }

  lemma {:induction false} CutEach(vs: seq<Value>, e: Type, data: seq<byte>, pos: nat, short: seq<byte>)
    requires EachHasType(vs, e) && Holds(data, pos, EncodeEach(vs, e)) && short <= data && pos <= |short| < pos + |EncodeEach(vs, e)|
    ensures DecodeEach(e, |vs|, short, pos).Invalid?
    decreases e, 1 + |vs|
  {
    var first := Encode(vs[0], e);
    HoldsConcat(data, pos, first, EncodeEach(vs[1..], e));
    if |short| < pos + |first| {
      CutOne(vs[0], e, data, pos, short);
    } else {
      HoldsShort(data, pos, first, short);
      DecodeInvertsEncode(vs[0], e, short, pos);
      CutEach(vs[1..], e, data, pos + |first|, short);
    }
  }

  lemma {:induction false} CutAll(vs: seq<Value>, ts: seq<Type>, data: seq<byte>, pos: nat, short: seq<byte>)
    requires AllHaveTypes(vs, ts) && Holds(data, pos, EncodeAll(vs, ts)) && short <= data && pos <= |short| < pos + |EncodeAll(vs, ts)|
    ensures DecodeAll(ts, short, pos).Invalid?
    decreases ts, 0
  {
    var first := Encode(vs[0], ts[0]);
    HoldsConcat(data, pos, first, EncodeAll(vs[1..], ts[1..]));
    if |short| < pos + |first| {
      CutOne(vs[0], ts[0], data, pos, short);
    } else {
      HoldsShort(data, pos, first, short);
      DecodeInvertsEncode(vs[0], ts[0], short, pos);
      CutAll(vs[1..], ts[1..], data, pos + |first|, short);
    }
  }
}
