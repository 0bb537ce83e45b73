/** Input movies: recording what the controllers did into a byte log and playing it back. */
module Movie {
  import opened Bytes
  import opened Common

  type bit = b: int | 0 <= b < 2
  type bits5 = b: int | 0 <= b < 0x20
  type bits7 = b: int | 0 <= b < 0x80
  type bits12 = b: int | 0 <= b < 0x1000

  // ---------------------------------------------------------------- bit fields

  function Sum(widths: seq<nat>): nat {
    if widths == [] then 0 else widths[0] + Sum(widths[1..])
  }

  predicate Fits(values: seq<nat>, widths: seq<nat>) {
    |values| == |widths| && forall i :: 0 <= i < |values| ==> values[i] < Pow2(widths[i])
  }

  /** Bit fields of the given widths, the first one lowest. */
  function Pack(values: seq<nat>, widths: seq<nat>): nat
    requires |values| == |widths|
  {
    if values == [] then 0 else values[0] + Pow2(widths[0]) * Pack(values[1..], widths[1..])
  }

  /** The lowest `w` bits, and those above them. */
  function Low(n: nat, w: nat): (v: nat)
    ensures v < Pow2(w)
    decreases w
  {
    if w == 0 then 0 else n % 2 + 2 * Low(n / 2, w - 1)
  }

  function High(n: nat, w: nat): nat
    decreases w
  {
    if w == 0 then n else High(n / 2, w - 1)
  }

  function Unpack(n: nat, widths: seq<nat>): (values: seq<nat>)
    ensures Fits(values, widths)
    decreases |widths|
  {
    if widths == [] then [] else [Low(n, widths[0])] + Unpack(High(n, widths[0]), widths[1..])
  }

  lemma {:induction false} LowField(w: nat, v: nat, high: nat)
    requires v < Pow2(w)
    ensures Low(v + Pow2(w) * high, w) == v && High(v + Pow2(w) * high, w) == high
    decreases w
  {
    if w > 0 {
      var p := Pow2(w - 1);
      LowField(w - 1, v / 2, high);
      Scales(2, p, high, p * high);
      Halve(v, p * high);
    }
  }

  lemma Halve(v: nat, m: nat)
    ensures (v + 2 * m) % 2 == v % 2 && (v + 2 * m) / 2 == v / 2 + m
  {
  }

  lemma {:induction false} PackBound(values: seq<nat>, widths: seq<nat>)
    requires Fits(values, widths)
    ensures Pack(values, widths) < Pow2(Sum(widths))
    decreases |values|
  {
    if values != [] {
      PackBound(values[1..], widths[1..]);
      var p, q := Pow2(widths[0]), Pow2(Sum(widths[1..]));
      Pow2Sum(widths[0], Sum(widths[1..]));
      Room(p, q, values[0], Pack(values[1..], widths[1..]));
    }
  }

  lemma Room(p: nat, q: nat, v: nat, rest: nat)
    requires v < p && rest < q
    ensures v + p * rest < p * q
  {
    AtLeastOne(q - rest, p);
    assert (q - rest) * p == p * q - p * rest;
  }

  /** Reading the fields back gives what was packed, whatever stands in the bits above them. */
  lemma UnpackInvertsPack(values: seq<nat>, widths: seq<nat>, above: nat)
    requires Fits(values, widths)
    ensures Unpack(Pack(values, widths) + Pow2(Sum(widths)) * above, widths) == values
  {
    UnpackOf(Pack(values, widths) + Pow2(Sum(widths)) * above, values, widths, above);
  }

  lemma {:induction false} UnpackOf(n: nat, values: seq<nat>, widths: seq<nat>, above: nat)
    requires Fits(values, widths) && n == Pack(values, widths) + Pow2(Sum(widths)) * above
    ensures Unpack(n, widths) == values
    decreases |values|
  {
    if values != [] {
      var high := Pack(values[1..], widths[1..]) + Pow2(Sum(widths[1..])) * above;
      PackedFields(values, widths, above, high);
      LowField(widths[0], values[0], high);
      UnpackOf(high, values[1..], widths[1..], above);
      assert values == [values[0]] + values[1..];
    }
  }

  /** The first field, and the others with what stands above them. */
  lemma PackedFields(values: seq<nat>, widths: seq<nat>, above: nat, high: nat)
    requires |values| == |widths| > 0 && high == Pack(values[1..], widths[1..]) + Pow2(Sum(widths[1..])) * above
    ensures Pack(values, widths) + Pow2(Sum(widths)) * above == values[0] + Pow2(widths[0]) * high
  {
    PackCons(values, widths);
    WidthsCons(widths);
    Regroup(Pow2(widths[0]), Pow2(Sum(widths[1..])), Pow2(Sum(widths)), values[0], Pack(values[1..], widths[1..]), above, high,
            Pack(values, widths));
  }

  lemma PackCons(values: seq<nat>, widths: seq<nat>)
    requires |values| == |widths| > 0
    ensures Pack(values, widths) == values[0] + Pow2(widths[0]) * Pack(values[1..], widths[1..])
  {
  }

  lemma WidthsCons(widths: seq<nat>)
    requires widths != []
    ensures Pow2(Sum(widths)) == Pow2(widths[0]) * Pow2(Sum(widths[1..]))
  {
    Pow2Sum(widths[0], Sum(widths[1..]));
  }

  lemma Regroup(p: nat, q: nat, pq: nat, v: nat, rest: nat, above: nat, high: nat, packed: nat)
    requires pq == p * q && packed == v + p * rest && high == rest + q * above
    ensures packed + pq * above == v + p * high
  {
    assert (p * q) * above == p * (q * above);
    assert p * (rest + q * above) == p * rest + p * (q * above);
  }

  // ---------------------------------------------------------------- inputs

  /**
   The buttons that a movie covers, in the order of their bits, which is the same in a record and in the pad
   state: A, B, select, start, right, left, up, down, R, L, X, Y, debug and GPIO 14.
   */
  type Buttons = s: seq<bit> | |s| == 14 witness seq(14, _ => 0)

  datatype Input =
    | PadAndCircle(buttons: Buttons, circleX: s16, circleY: s16)
    | Touch(touchX: u16, touchY: u16, valid: bits7)
    | Accelerometer(ax: s16, ay: s16, az: s16)
    | Gyroscope(gx: s16, gy: s16, gz: s16)
    | IrRst(cX: s16, cY: s16, zl: bit, zr: bit)
    | ExtraHidResponse(battery: bits5, zlNotHeld: bit, zrNotHeld: bit, rNotHeld: bit, cStickX: bits12, cStickY: bits12)

  function TypeOf(v: Input): byte {
    match v
    case PadAndCircle(_, _, _) => 0
    case Touch(_, _, _) => 1
    case Accelerometer(_, _, _) => 2
    case Gyroscope(_, _, _) => 3
    case IrRst(_, _, _, _) => 4
    case ExtraHidResponse(_, _, _, _, _, _) => 5
  }

  /** What happens to be in the parts of a record that are not assigned. */
  datatype Leftover = Leftover(top: nat, fifth: byte, sixth: byte)

  const RECORD: nat := 7
  const HID_WIDTHS: seq<nat> := [5, 1, 1, 1, 12, 12]

  function ButtonWidths(): (widths: seq<nat>)
    ensures |widths| == 14 && forall i :: 0 <= i < 14 ==> widths[i] == 1
  {
    seq(14, _ => 1)
  }

  function Unsigned(n: s16): u16 {
    if n < 0 then n + 0x1_0000 else n
  }

  function Signed(n: u16): s16 {
    if n < 0x8000 then n else n - 0x1_0000
  }

  function SignedAt(p: seq<byte>, i: nat): s16
    requires i + 1 < |p|
  {
    Signed(Word16(p[i], p[i + 1]))
  }

  function HidFields(v: Input): seq<nat>
    requires v.ExtraHidResponse?
  {
    [v.battery, v.zlNotHeld, v.zrNotHeld, v.rNotHeld, v.cStickX, v.cStickY]
  }

  lemma PowersAre()
    ensures Pow2(1) == 2 && Pow2(5) == 0x20 && Pow2(12) == 0x1000 && Pow2(14) == 0x4000 && Pow2(32) == 0x1_0000_0000
  {
    assert Pow2(4) == 0x10;
    Pow2Sum(4, 1);
    Pow2Sum(4, 4);
    Pow2Sum(8, 4);
    Pow2Sum(12, 1);
    Pow2Sum(13, 1);
    Pow2Sum(8, 8);
    Pow2Sum(16, 16);
  }

  lemma {:induction false} SumOfOnes(widths: seq<nat>)
    requires forall i :: 0 <= i < |widths| ==> widths[i] == 1
    ensures Sum(widths) == |widths|
  {
    if widths != [] {
      SumOfOnes(widths[1..]);
    }
  }

  lemma HidWidthSum()
    ensures Sum(HID_WIDTHS) == 32
  {
    assert HID_WIDTHS[1..] == [1, 1, 1, 12, 12];
    assert Sum([1, 1, 1, 12, 12]) == 27;
  }

  /** The six bytes behind the type. */
  function Payload(v: Input, left: Leftover): (p: seq<byte>)
    ensures |p| == 6
  {
    match v
    case PadAndCircle(buttons, x, y) =>
      Bytes16(HexOf(buttons, left.top)) + Bytes16(Unsigned(x)) + Bytes16(Unsigned(y))
    case Touch(x, y, valid) => Bytes16(x) + Bytes16(y) + [valid, left.sixth]
    case Accelerometer(x, y, z) => Bytes16(Unsigned(x)) + Bytes16(Unsigned(y)) + Bytes16(Unsigned(z))
    case Gyroscope(x, y, z) => Bytes16(Unsigned(x)) + Bytes16(Unsigned(y)) + Bytes16(Unsigned(z))
    case IrRst(x, y, zl, zr) => Bytes16(Unsigned(x)) + Bytes16(Unsigned(y)) + [zl, zr]
    case ExtraHidResponse(_, _, _, _, _, _) => Bytes32(HidHex(v)) + [left.fifth, left.sixth]
  }

  /** The buttons in the low 14 bits; the two above are not assigned. */
  function HexOf(buttons: Buttons, top: nat): u16 {
    ButtonsFit(buttons);
    Pack(buttons, ButtonWidths()) + 0x4000 * (top % 4)
  }

  lemma ButtonsFit(buttons: Buttons)
    ensures Fits(buttons, ButtonWidths()) && Pack(buttons, ButtonWidths()) < 0x4000 && Pow2(Sum(ButtonWidths())) == 0x4000
  {
    PowersAre();
    SumOfOnes(ButtonWidths());
    PackBound(buttons, ButtonWidths());
  }

  function HidHex(v: Input): (n: nat)
    requires v.ExtraHidResponse?
    ensures n < 0x1_0000_0000
  {
    HidFits(v);
    Pack(HidFields(v), HID_WIDTHS)
  }

  lemma HidFits(v: Input)
    requires v.ExtraHidResponse?
    ensures Fits(HidFields(v), HID_WIDTHS) && Pack(HidFields(v), HID_WIDTHS) < 0x1_0000_0000 && Pow2(Sum(HID_WIDTHS)) == 0x1_0000_0000
  {
    PowersAre();
    HidWidthSum();
    PackBound(HidFields(v), HID_WIDTHS);
  }

  type RecordBytes = r: seq<byte> | |r| == RECORD witness [0, 0, 0, 0, 0, 0, 0]

  /** `ControllerState` as it lies in the log. */
  function Encode(v: Input, left: Leftover): (r: RecordBytes) {
    [TypeOf(v)] + Payload(v, left)
  }

  function ButtonsFrom(hex: nat): Buttons {
    OnesAreBits(hex);
    Unpack(hex, ButtonWidths())
  }

  lemma OnesAreBits(hex: nat)
    ensures forall i :: 0 <= i < 14 ==> Unpack(hex, ButtonWidths())[i] < 2
  {
    PowersAre();
    forall i | 0 <= i < 14
      ensures Unpack(hex, ButtonWidths())[i] < 2
    {
      assert ButtonWidths()[i] == 1;
    }
  }

  function HidFrom(hex: nat): Input {
    FieldsInRange(hex);
    HidOf(Unpack(hex, HID_WIDTHS))
  }

  predicate HidInRange(f: seq<nat>) {
    |f| == 6 && f[0] < 0x20 && f[1] < 2 && f[2] < 2 && f[3] < 2 && f[4] < 0x1000 && f[5] < 0x1000
  }

  function HidOf(f: seq<nat>): Input
    requires HidInRange(f)
  {
    ExtraHidResponse(f[0], f[1], f[2], f[3], f[4], f[5])
  }

  lemma FieldsInRange(hex: nat)
    ensures HidInRange(Unpack(hex, HID_WIDTHS))
  {
    var f := Unpack(hex, HID_WIDTHS);
    PowersAre();
    assert f[0] < Pow2(HID_WIDTHS[0]) && f[1] < Pow2(HID_WIDTHS[1]) && f[2] < Pow2(HID_WIDTHS[2]);
    assert f[3] < Pow2(HID_WIDTHS[3]) && f[4] < Pow2(HID_WIDTHS[4]) && f[5] < Pow2(HID_WIDTHS[5]);
  }

  /** The values that a record of the type of `v` holds. A record of another type leaves `v` as it is. */
  function Decode(r: seq<byte>, v: Input): (w: Input)
    requires |r| == RECORD
    ensures TypeOf(w) == TypeOf(v)
  {
    if r[0] != TypeOf(v) then v else DecodePayload(r[1..], v)
  }

  function DecodePayload(p: seq<byte>, v: Input): (w: Input)
    requires |p| == 6
    ensures TypeOf(w) == TypeOf(v)
  {
    match v
    case PadAndCircle(_, _, _) => PadAndCircle(ButtonsFrom(Word16(p[0], p[1])), SignedAt(p, 2), SignedAt(p, 4))
    case Touch(_, _, _) => Touch(Word16(p[0], p[1]), Word16(p[2], p[3]), p[4] % 0x80)
    case Accelerometer(_, _, _) => Accelerometer(SignedAt(p, 0), SignedAt(p, 2), SignedAt(p, 4))
    case Gyroscope(_, _, _) => Gyroscope(SignedAt(p, 0), SignedAt(p, 2), SignedAt(p, 4))
    case IrRst(_, _, _, _) => IrRst(SignedAt(p, 0), SignedAt(p, 2), p[4] % 2, p[5] % 2)
    case ExtraHidResponse(_, _, _, _, _, _) => HidFrom(Word32(p))
  }

  lemma ButtonsReadBack(buttons: Buttons, top: nat)
    ensures ButtonsFrom(HexOf(buttons, top)) == buttons
  {
    ButtonsFit(buttons);
    ReadBack(buttons, ButtonWidths(), top % 4, 0x4000 * (top % 4), HexOf(buttons, top));
  }

  lemma ReadBack(values: seq<nat>, widths: seq<nat>, above: nat, shifted: nat, hex: nat)
    requires Fits(values, widths) && shifted == Pow2(Sum(widths)) * above && hex == Pack(values, widths) + shifted
    ensures Unpack(hex, widths) == values
  {
    UnpackInvertsPack(values, widths, above);
  }

  lemma PadDecodes(v: Input, left: Leftover, w: Input)
    requires v.PadAndCircle? && w.PadAndCircle?
    ensures Decode(Encode(v, left), w) == v
  {
    assert Encode(v, left)[1..] == Payload(v, left);
    PadPayload(v.buttons, v.circleX, v.circleY, HexOf(v.buttons, left.top));
    ButtonsReadBack(v.buttons, left.top);
  }

  lemma PadPayload(buttons: Buttons, x: s16, y: s16, hex: u16)
    ensures var p := Bytes16(hex) + Bytes16(Unsigned(x)) + Bytes16(Unsigned(y));
            && |p| == 6 && Word16(p[0], p[1]) == hex && SignedAt(p, 2) == x && SignedAt(p, 4) == y
  {
  }

  lemma HidDecodes(v: Input, left: Leftover, w: Input)
    requires v.ExtraHidResponse? && w.ExtraHidResponse?
    ensures Decode(Encode(v, left), w) == v
  {
    assert Encode(v, left)[1..] == Payload(v, left);
    HidReadBack(v);
    Word32Of(HidHex(v), [left.fifth, left.sixth]);
  }

  lemma HidReadBack(v: Input)
    requires v.ExtraHidResponse?
    ensures HidFrom(HidHex(v)) == v
  {
    HidFits(v);
    FieldsInRange(HidHex(v));
    ReadBack(HidFields(v), HID_WIDTHS, 0, 0, HidHex(v));
  }

  /** A record plays back as the values recorded, whatever its unassigned parts hold and the caller passes in. */
  lemma DecodeInvertsEncode(v: Input, left: Leftover, w: Input)
    requires TypeOf(w) == TypeOf(v)
    ensures Decode(Encode(v, left), w) == v
  {
    if v.PadAndCircle? {
      PadDecodes(v, left, w);
    } else if v.ExtraHidResponse? {
      HidDecodes(v, left, w);
    } else {
      assert Encode(v, left)[1..] == Payload(v, left);
    }
  }

  // ---------------------------------------------------------------- the bytes of a record

  function NumberAt(p: seq<byte>, i: nat): nat
    requires i < |p|
  {
    p[i]
  }

  /** A word of two bytes, the low one first, with negative numbers in two's complement. */
  predicate IsWord(p: seq<byte>, at: nat, n: int)
    requires at + 1 < |p|
  {
    NumberAt(p, at) + 0x100 * NumberAt(p, at + 1) == if n < 0 then n + 0x1_0000 else n
  }

  /** The record of `v`: its kind, and the fields of that kind at their places. */
  predicate IsRecordOf(r: RecordBytes, v: Input) {
    match v
    case PadAndCircle(buttons, x, y) =>
      && r[0] == 0 && IsWord(r, 3, x) && IsWord(r, 5, y)
      && forall k: nat :: k < 14 ==> (NumberAt(r, 1) + 0x100 * NumberAt(r, 2)) / Pow2(k) % 2 == buttons[k]
    case Touch(x, y, valid) => r[0] == 1 && IsWord(r, 1, x) && IsWord(r, 3, y) && r[5] == valid
    case Accelerometer(x, y, z) => r[0] == 2 && IsWord(r, 1, x) && IsWord(r, 3, y) && IsWord(r, 5, z)
    case Gyroscope(x, y, z) => r[0] == 3 && IsWord(r, 1, x) && IsWord(r, 3, y) && IsWord(r, 5, z)
    case IrRst(x, y, zl, zr) => r[0] == 4 && IsWord(r, 1, x) && IsWord(r, 3, y) && r[5] == zl && r[6] == zr
    case ExtraHidResponse(battery, zl, zr, rb, x, y) =>
      && r[0] == 5
      && NumberAt(r, 1) + 0x100 * NumberAt(r, 2) + 0x1_0000 * NumberAt(r, 3) + 0x100_0000 * NumberAt(r, 4) ==
         battery + 0x20 * zl + 0x40 * zr + 0x80 * rb + 0x100 * x + 0x10_0000 * y
  }

  lemma {:induction false} PackedBit(n: nat, values: seq<nat>, widths: seq<nat>, k: nat, above: nat)
    requires |values| == |widths| && k < |values| && forall i :: 0 <= i < |values| ==> widths[i] == 1 && values[i] < 2
    requires n == Pack(values, widths) + Pow2(Sum(widths)) * above
    ensures n / Pow2(k) % 2 == values[k]
    decreases |values|
  {
    var high := Pack(values[1..], widths[1..]) + Pow2(Sum(widths[1..])) * above;
    PackedFields(values, widths, above, high);
    LowestBit(n, values[0], high, k);
    if k > 0 {
      PackedBit(high, values[1..], widths[1..], k - 1, above);
    }
  }

  lemma LowestBit(n: nat, v: nat, high: nat, k: nat)
    requires v < 2 && n == v + Pow2(1) * high
    ensures k == 0 ==> n / Pow2(k) % 2 == v
    ensures k > 0 ==> n / Pow2(k) == high / Pow2(k - 1)
  {
    assert Pow2(1) == 2 * Pow2(0);
    Halve(v, high);
    if k > 0 {
      NestedHalf(n, Pow2(k - 1));
    }
  }

  lemma NestedHalf(n: nat, p: nat)
    requires p > 0
    ensures n / (2 * p) == n / 2 / p
  {
    var h := n / 2;
    var q, r := h / p, h % p;
    assert h == q * p + r;
    assert q * (2 * p) == 2 * (q * p);
    QuotientIs(n, 2 * p, q, 2 * r + n % 2);
  }

  lemma WordStands(n: s16, p: seq<byte>, at: nat)
    requires at + 1 < |p| && p[at] == Bytes16(Unsigned(n))[0] && p[at + 1] == Bytes16(Unsigned(n))[1]
    ensures IsWord(p, at, n)
  {
  }

  lemma PadRecord(v: Input, left: Leftover)
    requires v.PadAndCircle?
    ensures IsRecordOf(Encode(v, left), v)
  {
    var r := Encode(v, left);
    var hex := HexOf(v.buttons, left.top);
    PadBytes(hex, v.circleX, v.circleY, r);
    forall k: nat | k < 14
      ensures hex / Pow2(k) % 2 == v.buttons[k]
    {
      ButtonsFit(v.buttons);
      PackedBit(hex, v.buttons, ButtonWidths(), k, left.top % 4);
    }
  }

  lemma PadBytes(hex: u16, x: s16, y: s16, r: RecordBytes)
    requires r == [0] + (Bytes16(hex) + Bytes16(Unsigned(x)) + Bytes16(Unsigned(y)))
    ensures NumberAt(r, 1) + 0x100 * NumberAt(r, 2) == hex && r[0] == 0 && IsWord(r, 3, x) && IsWord(r, 5, y)
  {
    WordStands(x, r, 3);
    WordStands(y, r, 5);
  }

  lemma HidRecord(v: Input, left: Leftover)
    requires v.ExtraHidResponse?
    ensures IsRecordOf(Encode(v, left), v)
  {
    var r, n := Encode(v, left), HidHex(v);
    HidFields6(v, n);
    assert r == [5] + (Bytes16(n % 0x1_0000) + Bytes16(n / 0x1_0000) + [left.fifth, left.sixth]);
    assert [r[1], r[2]] == Bytes16(n % 0x1_0000) && [r[3], r[4]] == Bytes16(n / 0x1_0000);
  }

  lemma HidFields6(v: Input, n: nat)
    requires v.ExtraHidResponse? && n == HidHex(v)
    ensures n == v.battery + 0x20 * v.zlNotHeld + 0x40 * v.zrNotHeld + 0x80 * v.rNotHeld + 0x100 * v.cStickX + 0x10_0000 * v.cStickY
  {
    PowersAre();
    var f, w := HidFields(v), HID_WIDTHS;
    assert Pack(f[6..], w[6..]) == 0;
    PackTail(f, w, 5);
    PackTail(f, w, 4);
    PackTail(f, w, 3);
    PackTail(f, w, 2);
    PackTail(f, w, 1);
    PackTail(f, w, 0);
    assert f[0..] == f && w[0..] == w;
  }

  lemma PackTail(values: seq<nat>, widths: seq<nat>, k: nat)
    requires |values| == |widths| && k < |values|
    ensures Pack(values[k..], widths[k..]) == values[k] + Pow2(widths[k]) * Pack(values[k + 1..], widths[k + 1..])
  {
    PackCons(values[k..], widths[k..]);
  }

  /** The layout of a record, whatever stands in its unassigned parts. */
  lemma RecordLayout(v: Input, left: Leftover)
    ensures IsRecordOf(Encode(v, left), v)
  {
    if v.PadAndCircle? {
      PadRecord(v, left);
    } else if v.ExtraHidResponse? {
      HidRecord(v, left);
    }
  }

  /** A record of another kind changes nothing. */
  lemma OtherKindIsIgnored(v: Input, left: Leftover, w: Input)
    requires Encode(v, left)[0] != Encode(w, left)[0]
    ensures Decode(Encode(v, left), w) == w
  {
  }

  // ---------------------------------------------------------------- the state machine

  datatype PlayMode = NoMovie | Recording | Playing | MovieFinished

  /** An identifier of zero means that there is no movie. */
  datatype State = State(mode: PlayMode, recorded: seq<byte>, currentByte: nat, currentInput: nat, id: nat)

  /** `std::vector::resize`. */
  function Resize(s: seq<byte>, n: nat): (r: seq<byte>)
    ensures |r| == n
  {
    if n <= |s| then s[..n] else s + seq<byte>(n - |s|, _ => 0)
  }

  lemma ResizePrefix(s: seq<byte>, k: nat, n: nat)
    requires k <= n
    ensures Resize(s, n)[..k] == Resize(s, k)
  {
  }

  function IfPad(v: Input): nat {
    if v.PadAndCircle? then 1 else 0
  }

  /** Anything recorded behind the current position is cut off. */
  function Record(m: State, v: Input, left: Leftover): State {
    m.(recorded := Resize(m.recorded, m.currentByte) + Encode(v, left),
       currentByte := m.currentByte + RECORD, currentInput := m.currentInput + IfPad(v))
  }

  /** The assertion in `Handle`. */
  predicate Safe(m: State) {
    m.mode.Playing? ==> m.currentByte + RECORD <= |m.recorded|
  }

  /** `CheckInputEnd`. */
  function Checked(m: State): State {
    if m.currentByte + RECORD > |m.recorded| then m.(mode := MovieFinished) else m
  }

  /** One call: the new state, and the values the caller continues with. */
  function Handle(m: State, v: Input, left: Leftover): (State, Input)
    requires Safe(m)
  {
    match m.mode
    case Playing =>
      (Checked(m.(currentByte := m.currentByte + RECORD, currentInput := m.currentInput + IfPad(v))),
       Decode(m.recorded[m.currentByte..m.currentByte + RECORD], v))
    case Recording => (Record(m, v, left), v)
    case _ => (m, v)
  }

  /** The state of a movie that was never started or has been shut down. */
  const CLEARED := State(NoMovie, [], 0, 0, 0)

  /** `StartRecording`. */
  function Started(m: State, id: nat): State {
    m.(mode := Recording, id := id)
  }

  const HEADER: nat := 256
  const MAGIC: seq<byte> := [0x43, 0x54, 0x4D, 0x1B]

  /** `StartPlayback` on the contents of a file; a file it does not accept changes nothing. */
  function StartPlayback(m: State, file: seq<byte>, id: nat): State {
    if |file| > HEADER && file[..4] == MAGIC then State(Playing, file[HEADER..], 0, 0, id) else m
  }

  /** `SaveMovie` writes the header and the log. */
  function MovieFile(header: seq<byte>, m: State): seq<byte> {
    header + m.recorded
  }

  /** The pad records of a log; an incomplete record at the end does not count. */
  function CountPads(log: seq<byte>): nat {
    if |log| < RECORD then 0 else (if log[0] == 0 then 1 else 0) + CountPads(log[RECORD..])
  }

  // ---------------------------------------------------------------- recording

  /** Records one after the other. */
  function Flatten(rs: seq<RecordBytes>): (log: seq<byte>)
    ensures |log| == RECORD * |rs|
  {
    if rs == [] then [] else Flatten(rs[..|rs| - 1]) + rs[|rs| - 1]
  }

  /** The records of a series of inputs. */
  function Records(vs: seq<Input>, lefts: seq<Leftover>): (rs: seq<RecordBytes>)
    requires |vs| == |lefts|
    ensures |rs| == |vs|
  {
    seq<RecordBytes>(|vs|, i requires 0 <= i < |vs| => Encode(vs[i], lefts[i]))
  }

  function Log(vs: seq<Input>, lefts: seq<Leftover>): (log: seq<byte>)
    requires |vs| == |lefts|
    ensures |log| == RECORD * |vs|
  {
    Flatten(Records(vs, lefts))
  }

  lemma FlattenSnoc(rs: seq<RecordBytes>, r: RecordBytes)
    ensures Flatten(rs + [r]) == Flatten(rs) + r
  {
    assert (rs + [r])[..|rs|] == rs;
  }

  /** Record `i` lies at its place. */
  lemma {:induction false} FlattenAt(rs: seq<RecordBytes>, i: nat, at: nat)
    requires i < |rs| && at == RECORD * i
    ensures at + RECORD <= |Flatten(rs)| && Flatten(rs)[at..at + RECORD] == rs[i]
    decreases |rs|
  {
    var n := |rs| - 1;
    if i < n {
      FlattenAt(rs[..n], i, at);
      SliceOfFirst(Flatten(rs[..n]), rs[n], at, at + RECORD);
    } else {
      SliceOfSecond(Flatten(rs[..n]), rs[n]);
    }
  }

  lemma SliceOfFirst(a: seq<byte>, b: seq<byte>, from: nat, to: nat)
    requires from <= to <= |a|
    ensures (a + b)[from..to] == a[from..to]
  {
  }

  lemma SliceOfSecond(a: seq<byte>, b: seq<byte>)
    ensures (a + b)[|a|..|a| + |b|] == b
  {
  }

  lemma {:induction false} FlattenPrefix(rs: seq<RecordBytes>, k: nat)
    requires k <= |rs|
    ensures Flatten(rs[..k]) <= Flatten(rs)
    decreases |rs|
  {
    if k == |rs| {
      assert rs[..k] == rs;
    } else {
      var n := |rs| - 1;
      FlattenPrefix(rs[..n], k);
      assert rs[..n][..k] == rs[..k];
    }
  }

  lemma LogSnoc(vs: seq<Input>, lefts: seq<Leftover>, v: Input, left: Leftover)
    requires |vs| == |lefts|
    ensures Log(vs + [v], lefts + [left]) == Log(vs, lefts) + Encode(v, left)
  {
    assert Records(vs + [v], lefts + [left]) == Records(vs, lefts) + [Encode(v, left)];
    FlattenSnoc(Records(vs, lefts), Encode(v, left));
  }

  function Pads(vs: seq<Input>): nat {
    if vs == [] then 0 else Pads(vs[..|vs| - 1]) + IfPad(vs[|vs| - 1])
  }

  /** A movie after `vs` have been recorded from the start. */
  function Recorded(vs: seq<Input>, lefts: seq<Leftover>, id: nat): State
    requires |vs| == |lefts|
  {
    State(Recording, Log(vs, lefts), RECORD * |vs|, Pads(vs), id)
  }

  /** The states and values of a series of calls. */
  function HandleAll(m: State, vs: seq<Input>, lefts: seq<Leftover>): (r: Option<(State, seq<Input>)>)
    requires |vs| == |lefts|
    ensures r.Some? ==> |r.value.1| == |vs|
  {
    if vs == [] then Some((m, []))
    else
      match HandleAll(m, vs[..|vs| - 1], lefts[..|vs| - 1])
      case None => None
      case Some(before) =>
        if !Safe(before.0) then None
        else
          var (after, v) := Handle(before.0, vs[|vs| - 1], lefts[|vs| - 1]);
          Some((after, before.1 + [v]))
  }

  lemma RecordingStep(vs: seq<Input>, lefts: seq<Leftover>, id: nat, n: nat)
    requires |vs| == |lefts| == n + 1
    ensures Handle(Recorded(vs[..n], lefts[..n], id), vs[n], lefts[n]) == (Recorded(vs, lefts, id), vs[n])
  {
    LogLast(vs, lefts);
    RecordAtEnd(Recorded(vs[..n], lefts[..n], id), vs[n], lefts[n], Recorded(vs, lefts, id));
  }

  lemma LogLast(vs: seq<Input>, lefts: seq<Leftover>)
    requires |vs| == |lefts| && vs != []
    ensures var n := |vs| - 1;
            Log(vs, lefts) == Log(vs[..n], lefts[..n]) + Encode(vs[n], lefts[n])
  {
    var n := |vs| - 1;
    assert vs[..n] + [vs[n]] == vs && lefts[..n] + [lefts[n]] == lefts;
    LogSnoc(vs[..n], lefts[..n], vs[n], lefts[n]);
  }

  lemma RecordAtEnd(m: State, v: Input, left: Leftover, after: State)
    requires m.mode == Recording && m.currentByte == |m.recorded|
    requires after == m.(recorded := m.recorded + Encode(v, left), currentByte := m.currentByte + RECORD,
                         currentInput := m.currentInput + IfPad(v))
    ensures Handle(m, v, left) == (after, v)
  {
    assert Resize(m.recorded, m.currentByte) == m.recorded;
  }

  /** Call `i` takes the movie from one state to the next and returns `got[i]`. */
  predicate CallGoes(states: seq<State>, vs: seq<Input>, lefts: seq<Leftover>, got: seq<Input>, i: nat)
    requires |states| == |vs| + 1 && |vs| == |lefts| == |got| && i < |vs|
  {
    Safe(states[i]) && Handle(states[i], vs[i], lefts[i]) == (states[i + 1], got[i])
  }

  lemma {:induction false} CallsGo(states: seq<State>, vs: seq<Input>, lefts: seq<Leftover>, got: seq<Input>, n: nat)
    requires |states| == |vs| + 1 && |vs| == |lefts| == |got| && n <= |vs|
    requires forall i :: 0 <= i < |vs| ==> CallGoes(states, vs, lefts, got, i)
    ensures HandleAll(states[0], vs[..n], lefts[..n]) == Some((states[n], got[..n]))
  {
    if n > 0 {
      var k := n - 1;
      CallsGo(states, vs, lefts, got, k);
      assert vs[..n][..k] == vs[..k] && lefts[..n][..k] == lefts[..k] && got[..n] == got[..k] + [got[k]];
      assert CallGoes(states, vs, lefts, got, k);
    }
  }

  lemma AllCallsGo(states: seq<State>, vs: seq<Input>, lefts: seq<Leftover>, got: seq<Input>)
    requires |states| == |vs| + 1 && |vs| == |lefts| == |got|
    requires forall i :: 0 <= i < |vs| ==> CallGoes(states, vs, lefts, got, i)
    ensures HandleAll(states[0], vs, lefts) == Some((states[|vs|], got))
  {
    CallsGo(states, vs, lefts, got, |vs|);
    assert vs[..|vs|] == vs && lefts[..|vs|] == lefts && got[..|vs|] == got;
  }

  /** Recording, from its start, appends one record for each call and hands the values on. */
  lemma RecordingAppends(vs: seq<Input>, lefts: seq<Leftover>, id: nat)
    requires |vs| == |lefts|
    ensures HandleAll(Recorded([], [], id), vs, lefts) == Some((Recorded(vs, lefts, id), vs))
  {
    var states := seq(|vs| + 1, i requires 0 <= i <= |vs| => Recorded(vs[..i], lefts[..i], id));
    forall i | 0 <= i < |vs|
      ensures CallGoes(states, vs, lefts, vs, i)
    {
      RecordingNext(vs, lefts, id, i, i + 1);
    }
    AllCallsGo(states, vs, lefts, vs);
    assert vs[..0] == [] && lefts[..0] == [] && vs[..|vs|] == vs && lefts[..|vs|] == lefts;
  }

  lemma RecordingNext(vs: seq<Input>, lefts: seq<Leftover>, id: nat, i: nat, next: nat)
    requires |vs| == |lefts| && i < |vs| && next == i + 1
    ensures Handle(Recorded(vs[..i], lefts[..i], id), vs[i], lefts[i]) == (Recorded(vs[..next], lefts[..next], id), vs[i])
  {
    assert vs[..next][..i] == vs[..i] && lefts[..next][..i] == lefts[..i];
    RecordingStep(vs[..next], lefts[..next], id, i);
  }

  /** The input count written to the header is the number of pad inputs recorded; the start of one more record does not count. */
  lemma CountOfLog(vs: seq<Input>, lefts: seq<Leftover>, rest: seq<byte>)
    requires |vs| == |lefts| && |rest| < RECORD
    ensures CountPads(Log(vs, lefts) + rest) == Pads(vs)
  {
    CountWhole(vs, lefts);
    CountConcat(Log(vs, lefts), rest, |vs|);
  }

  lemma {:induction false} CountWhole(vs: seq<Input>, lefts: seq<Leftover>)
    requires |vs| == |lefts|
    ensures CountPads(Log(vs, lefts)) == Pads(vs)
    decreases |vs|
  {
    if vs != [] {
      var n := |vs| - 1;
      CountWhole(vs[..n], lefts[..n]);
      LogLast(vs, lefts);
      CountConcat(Log(vs[..n], lefts[..n]), Encode(vs[n], lefts[n]), n);
      assert CountPads(Encode(vs[n], lefts[n])[RECORD..]) == 0;
    }
  }

  lemma {:induction false} CountConcat(a: seq<byte>, b: seq<byte>, n: nat)
    requires |a| == RECORD * n
    ensures CountPads(a + b) == CountPads(a) + CountPads(b)
    decreases n
  {
    if n == 0 {
      assert a + b == b;
    } else {
      assert (a + b)[RECORD..] == a[RECORD..] + b;
      CountConcat(a[RECORD..], b, n - 1);
    }
  }

  // ---------------------------------------------------------------- replay

  /** `ws` begins like `vs`, as far as the kinds of input go. */
  predicate SameKinds(vs: seq<Input>, ws: seq<Input>) {
    |ws| <= |vs| && forall i :: 0 <= i < |ws| ==> TypeOf(vs[i]) == TypeOf(ws[i])
  }

  /** The playback of `vs` after `i` calls: finished exactly with the last record. */
  function Replayed(vs: seq<Input>, lefts: seq<Leftover>, id: nat, i: nat): State
    requires |vs| == |lefts| && i <= |vs|
  {
    AtRecord(Log(vs, lefts), |vs|, i, Pads(vs[..i]), id)
  }

  function AtRecord(log: seq<byte>, n: nat, i: nat, pads: nat, id: nat): State {
    State(if i < n then Playing else MovieFinished, log, RECORD * i, pads, id)
  }

  lemma PlayNext(log: seq<byte>, n: nat, i: nat, pads: nat, id: nat, w: Input, left: Leftover, v: Input)
    requires |log| == RECORD * n && i < n && Decode(log[RECORD * i..RECORD * i + RECORD], w) == v
    ensures Safe(AtRecord(log, n, i, pads, id))
    ensures Handle(AtRecord(log, n, i, pads, id), w, left) == (AtRecord(log, n, i + 1, pads + IfPad(v), id), v)
  {
  }

  lemma ReplayStep(vs: seq<Input>, lefts: seq<Leftover>, id: nat, i: nat, next: nat, w: Input, left: Leftover)
    requires |vs| == |lefts| && i < |vs| && next == i + 1 && TypeOf(w) == TypeOf(vs[i])
    ensures Safe(Replayed(vs, lefts, id, i))
    ensures Handle(Replayed(vs, lefts, id, i), w, left) == (Replayed(vs, lefts, id, next), vs[i])
  {
    ReplayValue(vs, lefts, i, w);
    PadsNext(vs, i);
    PlayNext(Log(vs, lefts), |vs|, i, Pads(vs[..i]), id, w, left, vs[i]);
  }

  lemma PadsNext(vs: seq<Input>, i: nat)
    requires i < |vs|
    ensures Pads(vs[..i + 1]) == Pads(vs[..i]) + IfPad(vs[i])
  {
    assert vs[..i + 1][..i] == vs[..i];
  }

  /** The record at its place in the log. */
  lemma ReplayValue(vs: seq<Input>, lefts: seq<Leftover>, i: nat, w: Input)
    requires |vs| == |lefts| && i < |vs| && TypeOf(w) == TypeOf(vs[i])
    ensures Decode(Log(vs, lefts)[RECORD * i..RECORD * i + RECORD], w) == vs[i]
  {
    FlattenAt(Records(vs, lefts), i, RECORD * i);
    DecodeInvertsEncode(vs[i], lefts[i], w);
  }

  /**
   Playing a recording back with calls of the same kinds returns the recorded values, whatever the callers pass
   in; the assertion never fails, the position stays at a record, the input index counts the pad records, and
   playback is finished exactly when the last record has been consumed.
   */
  lemma ReplayReturnsRecorded(vs: seq<Input>, lefts: seq<Leftover>, id: nat, ws: seq<Input>, junk: seq<Leftover>)
    requires |vs| == |lefts| && vs != [] && |ws| == |junk| && SameKinds(vs, ws)
    ensures HandleAll(Replayed(vs, lefts, id, 0), ws, junk) == Some((Replayed(vs, lefts, id, |ws|), vs[..|ws|]))
  {
    var states := seq(|ws| + 1, i requires 0 <= i <= |ws| => Replayed(vs, lefts, id, i));
    forall i | 0 <= i < |ws|
      ensures CallGoes(states, ws, junk, vs[..|ws|], i)
    {
      ReplayStep(vs, lefts, id, i, i + 1, ws[i], junk[i]);
    }
    AllCallsGo(states, ws, junk, vs[..|ws|]);
  }

  /** A saved movie starts to play from its first record, if it has one. */
  lemma SavedMoviePlays(vs: seq<Input>, lefts: seq<Leftover>, id: nat, header: seq<byte>, before: State)
    requires |vs| == |lefts| && |header| == HEADER && header[..4] == MAGIC
    ensures StartPlayback(before, MovieFile(header, Recorded(vs, lefts, id)), id) ==
            if vs == [] then before else Replayed(vs, lefts, id, 0)
  {
    var file := MovieFile(header, Recorded(vs, lefts, id));
    assert file[..4] == header[..4] && file[HEADER..] == Log(vs, lefts);
  }

  /**
   From beginning to end: whatever is recorded from a cleared movie and saved, the file plays back to any calls of
   the same kinds as what was recorded.
   */
  lemma RecordThenReplay(vs: seq<Input>, lefts: seq<Leftover>, id: nat, header: seq<byte>, ws: seq<Input>, junk: seq<Leftover>)
    requires |vs| == |lefts| && vs != [] && |header| == HEADER && header[..4] == MAGIC
    requires |ws| == |junk| && SameKinds(vs, ws)
    ensures var recording := HandleAll(Started(CLEARED, id), vs, lefts);
            && recording.Some? && recording.value.1 == vs
            && HandleAll(StartPlayback(CLEARED, MovieFile(header, recording.value.0), id), ws, junk) ==
               Some((Replayed(vs, lefts, id, |ws|), vs[..|ws|]))
  {
    assert Records([], []) == [];
    assert Started(CLEARED, id) == Recorded([], [], id);
    RecordingAppends(vs, lefts, id);
    SavedMoviePlays(vs, lefts, id, header, CLEARED);
    ReplayReturnsRecorded(vs, lefts, id, ws, junk);
  }

  lemma HandleKeepsSafe(m: State, v: Input, left: Leftover)
    requires Safe(m)
    ensures Safe(Handle(m, v, left).0)
  {
  }

  lemma {:induction false} SafeForEver(m: State, ws: seq<Input>, junk: seq<Leftover>)
    requires |ws| == |junk| && Safe(m)
    ensures HandleAll(m, ws, junk).Some? && Safe(HandleAll(m, ws, junk).value.0)
    decreases |ws|
  {
    if ws != [] {
      SafeForEver(m, ws[..|ws| - 1], junk[..|ws| - 1]);
      HandleKeepsSafe(HandleAll(m, ws[..|ws| - 1], junk[..|ws| - 1]).value.0, ws[|ws| - 1], junk[|ws| - 1]);
    }
  }

  /** For any file at all that is accepted, the assertion holds for ever if it has room for one record, and fails at once if not. */
  lemma AssertHoldsIff(before: State, file: seq<byte>, id: nat, ws: seq<Input>, junk: seq<Leftover>)
    requires |file| > HEADER && file[..4] == MAGIC && |ws| == |junk| && ws != []
    ensures HandleAll(StartPlayback(before, file, id), ws, junk).Some? <==> |file| >= HEADER + RECORD
  {
    var m := StartPlayback(before, file, id);
    if |file| >= HEADER + RECORD {
      SafeForEver(m, ws, junk);
    } else {
      FirstFails(m, ws, junk);
    }
  }

  /** For example, a file with a single byte behind its header. */
  lemma OneByteMovieFails(v: Input, left: Leftover)
    ensures var file: seq<byte> := MAGIC + seq<byte>(HEADER - 3, _ => 0);
            && StartPlayback(CLEARED, file, 1).mode == Playing
            && HandleAll(StartPlayback(CLEARED, file, 1), [v], [left]).None?
  {
    var file: seq<byte> := MAGIC + seq<byte>(HEADER - 3, _ => 0);
    assert file[..4] == MAGIC;
    AssertHoldsIff(CLEARED, file, 1, [v], [left]);
  }

  lemma {:induction false} FirstFails(m: State, ws: seq<Input>, junk: seq<Leftover>)
    requires |ws| == |junk| && ws != [] && !Safe(m)
    ensures HandleAll(m, ws, junk).None?
    decreases |ws|
  {
    if |ws| > 1 {
      FirstFails(m, ws[..|ws| - 1], junk[..|ws| - 1]);
    } else {
      assert HandleAll(m, ws[..0], junk[..0]) == Some((m, []));
    }
  }

  // ---------------------------------------------------------------- savestates

  /** What `serialize` writes. */
  datatype Savestate = Savestate(currentByte: nat, currentInput: nat, recorded: seq<byte>, id: nat, postMovie: bool)

  function Save(m: State): Savestate {
    Savestate(m.currentByte, m.currentInput, m.recorded, m.id, m.mode.MovieFinished?)
  }

  datatype LoadError = MustCloseMovie | MustLoadSameMovie | FutureEvent | TimelineMismatch

  datatype Loaded = Ok(state: State) | Err(why: LoadError)

  /** The checks and changes of `serialize` on loading. */
  function Load(m: State, s: Savestate, readOnly: bool): Loaded {
    var at := Moved(m, s);
    if m.id != s.id then Err(if s.id == 0 then MustCloseMovie else MustLoadSameMovie)
    else if m.id == 0 then Ok(at)
    else if !readOnly then
      Ok(at.(recorded := s.recorded, mode := if s.postMovie then MovieFinished else Recording))
    else if s.postMovie then Ok(at.(mode := MovieFinished))
    else if |s.recorded| >= |m.recorded| then Err(FutureEvent)
    else if !(s.recorded <= m.recorded) then Err(TimelineMismatch)
    else Ok(at.(mode := Playing))
  }

  /** A file is played if it carries the magic number and something behind its header; any other changes nothing. */
  lemma PlaysIff(m: State, file: seq<byte>, id: nat)
    requires m.mode == NoMovie
    ensures StartPlayback(m, file, id) ==
            if |file| <= 256 || file[0] != 0x43 || file[1] != 0x54 || file[2] != 0x4D || file[3] != 0x1B then m
            else State(Playing, file[256..], 0, 0, id)
  {
    if |file| > 256 {
      assert file[..4] == [file[0], file[1], file[2], file[3]];
    }
  }

  /** Recording at a position in the log forgets what lies behind it, and fills with zeros up to a position beyond it. */
  lemma RecordsAtPosition(m: State, v: Input, left: Leftover)
    requires m.mode == Recording
    ensures var after := Handle(m, v, left).0.recorded;
            && |after| == m.currentByte + 7
            && IsRecordOf(after[m.currentByte..], v)
            && forall i: nat :: i < m.currentByte ==> after[i] == if i < |m.recorded| then m.recorded[i] else 0
  {
    RecordLayout(v, left);
    assert Handle(m, v, left).0.recorded[m.currentByte..] == Encode(v, left);
  }

  /** The saved log is a part of the one that plays, from its start, and shorter. */
  predicate IsEarlier(s: seq<byte>, log: seq<byte>) {
    |s| < |log| && forall i :: 0 <= i < |s| ==> s[i] == log[i]
  }

  /** When a savestate is accepted, why it is not, and what it changes. */
  lemma LoadOutcome(m: State, s: Savestate, readOnly: bool)
    ensures Load(m, s, readOnly).Ok? <==>
            s.id == m.id && (m.id == 0 || !readOnly || s.postMovie || IsEarlier(s.recorded, m.recorded))
    ensures Load(m, s, readOnly) == Err(MustCloseMovie) <==> s.id == 0 && m.id != 0
    ensures Load(m, s, readOnly) == Err(MustLoadSameMovie) <==> s.id != 0 && m.id != s.id
    ensures Load(m, s, readOnly) == Err(FutureEvent) <==>
            s.id == m.id != 0 && readOnly && !s.postMovie && |s.recorded| >= |m.recorded|
    ensures Load(m, s, readOnly).Ok? ==>
            var after := Load(m, s, readOnly).state;
            && after.currentByte == s.currentByte && after.currentInput == s.currentInput && after.id == m.id
            && after.recorded == (if m.id != 0 && !readOnly then s.recorded else m.recorded)
            && after.mode == if m.id == 0 then m.mode else if s.postMovie then MovieFinished else if readOnly then Playing else Recording
  {
    if |s.recorded| < |m.recorded| {
      assert s.recorded <= m.recorded <==> IsEarlier(s.recorded, m.recorded);
    }
  }

  lemma LogPrefix(vs: seq<Input>, lefts: seq<Leftover>, k: nat)
    requires |vs| == |lefts| && k <= |vs|
    ensures Log(vs[..k], lefts[..k]) <= Log(vs, lefts)
  {
    assert Records(vs[..k], lefts[..k]) == Records(vs, lefts)[..k];
    FlattenPrefix(Records(vs, lefts), k);
  }

  /**
   A state saved in the middle of a recording, loaded while that movie plays read-only: playback goes on right
   behind the inputs recorded until then, unless it was saved at the very end.
   */
  lemma RewindWhilePlaying(vs: seq<Input>, lefts: seq<Leftover>, id: nat, k: nat, i: nat)
    requires |vs| == |lefts| && k <= |vs| && i <= |vs| && id != 0
    ensures Load(Replayed(vs, lefts, id, i), Save(Recorded(vs[..k], lefts[..k], id)), true) ==
            if k < |vs| then Ok(Replayed(vs, lefts, id, k)) else Err(FutureEvent)
  {
    LogPrefix(vs, lefts, k);
  }

  /** Loaded without protection, the recording goes on from there and what came after is forgotten. */
  lemma RewindWhileRecording(vs: seq<Input>, lefts: seq<Leftover>, id: nat, k: nat)
    requires |vs| == |lefts| && k <= |vs| && id != 0
    ensures Load(Recorded(vs, lefts, id), Save(Recorded(vs[..k], lefts[..k], id)), false) == Ok(Recorded(vs[..k], lefts[..k], id))
  {
  }

  /** A state saved during playback holds the whole log, so no playback of that movie accepts it read-only. */
  lemma PlaybackStateRejected(vs: seq<Input>, lefts: seq<Leftover>, id: nat, k: nat, i: nat)
    requires |vs| == |lefts| && k < |vs| && i <= |vs| && id != 0
    ensures Load(Replayed(vs, lefts, id, i), Save(Replayed(vs, lefts, id, k)), true) == Err(FutureEvent)
  {
  }

  /** What a rejected load leaves: the checks come after the position has been moved. */
  function Moved(m: State, s: Savestate): State {
    m.(currentByte := s.currentByte, currentInput := s.currentInput)
  }

  /**
   Whatever state is rejected: however many inputs follow, the playback goes on without failing the assertion if
   and only if the position in the rejected state leaves room for a record in the movie that plays.
   */
  lemma RejectedLoadGoesOnIff(m: State, s: Savestate, ws: seq<Input>, junk: seq<Leftover>)
    requires m.mode.Playing? && Load(m, s, true).Err? && |ws| == |junk| && ws != []
    ensures HandleAll(Moved(m, s), ws, junk).Some? <==> s.currentByte + RECORD <= |m.recorded|
  {
    if s.currentByte + RECORD <= |m.recorded| {
      SafeForEver(Moved(m, s), ws, junk);
    } else {
      FirstFails(Moved(m, s), ws, junk);
    }
  }

  /** When the rejected state was saved by a recording, that is one of fewer inputs than the movie has. */
  lemma RejectedRecordingGoesOnIff(vs: seq<Input>, lefts: seq<Leftover>, id: nat, i: nat, us: seq<Input>, others: seq<Leftover>, id': nat,
                                   ws: seq<Input>, junk: seq<Leftover>)
    requires |vs| == |lefts| && |us| == |others| && i < |vs| && |ws| == |junk| && ws != []
    requires Load(Replayed(vs, lefts, id, i), Save(Recorded(us, others, id')), true).Err?
    ensures HandleAll(Moved(Replayed(vs, lefts, id, i), Save(Recorded(us, others, id'))), ws, junk).Some? <==> |us| < |vs|
  {
    RejectedLoadGoesOnIff(Replayed(vs, lefts, id, i), Save(Recorded(us, others, id')), ws, junk);
  }

  /** When a playback of the same movie saved it, the load is rejected and all the same rewinds to where it was saved. */
  lemma RejectedPlaybackRewinds(vs: seq<Input>, lefts: seq<Leftover>, id: nat, i: nat, k: nat)
    requires |vs| == |lefts| && i < |vs| && k < |vs| && id != 0
    ensures var m, s := Replayed(vs, lefts, id, i), Save(Replayed(vs, lefts, id, k));
            Load(m, s, true) == Err(FutureEvent) && Moved(m, s) == Replayed(vs, lefts, id, k)
  {
    PlaybackStateRejected(vs, lefts, id, k, i);
  }

  /** The state saved at the end of the recording that is playing is rejected, and breaks the playback. */
  lemma RejectedLoadBreaksPlayback(vs: seq<Input>, lefts: seq<Leftover>, id: nat, i: nat, ws: seq<Input>, junk: seq<Leftover>)
    requires |vs| == |lefts| && i < |vs| && id != 0 && |ws| == |junk| && ws != []
    ensures var m, s := Replayed(vs, lefts, id, i), Save(Recorded(vs, lefts, id));
            Load(m, s, true) == Err(FutureEvent) && HandleAll(Moved(m, s), ws, junk).None?
  {
    RejectedRecordingGoesOnIff(vs, lefts, id, i, vs, lefts, id, ws, junk);
  }

  /**
   Whatever the two states are: after an accepted read-only load the assertion holds for ever, if positions lie at
   records and the saved one within the saved log.
   */
  lemma LoadIsSafe(m: State, s: Savestate, ws: seq<Input>, junk: seq<Leftover>)
    requires Load(m, s, true).Ok? && m.id != 0 && |m.recorded| % RECORD == 0 && |ws| == |junk|
    requires s.currentByte <= |s.recorded| && s.currentByte % RECORD == 0
    ensures HandleAll(Load(m, s, true).state, ws, junk).Some?
  {
    SafeForEver(Load(m, s, true).state, ws, junk);
  }

  // ---------------------------------------------------------------- the class

  class MovieImpl {
    var playMode: PlayMode
    var recordedInput: seq<byte>
    var currentByte: nat
    var currentInput: nat
    var id: nat

    ghost function View(): State
      reads this
    {
      State(playMode, recordedInput, currentByte, currentInput, id)
    }

    constructor ()
      ensures View() == CLEARED
    {
      playMode, recordedInput, currentByte, currentInput, id := NoMovie, [], 0, 0, 0;
    }

    method StartRecording(id: nat)
      modifies this
      ensures View() == Started(old(View()), id)
    {
      playMode := Recording;
      this.id := id;
    }

    method Play(v: Input) returns (w: Input)
      requires currentByte + RECORD <= |recordedInput|
      modifies this`currentByte, this`currentInput
      ensures w == Decode(recordedInput[old(currentByte)..old(currentByte) + RECORD], v)
      ensures currentByte == old(currentByte) + RECORD && currentInput == old(currentInput) + IfPad(v)
    {
      var s := recordedInput[currentByte..currentByte + RECORD];
      currentByte := currentByte + RECORD;
      if v.PadAndCircle? {
        currentInput := currentInput + 1;
      }
      w := Decode(s, v);
    }

    method CheckInputEnd()
      modifies this`playMode
      ensures View() == Checked(old(View()))
    {
      if currentByte + RECORD > |recordedInput| {
        playMode := MovieFinished;
      }
    }

    method RecordInput(v: Input, left: Leftover)
      modifies this
      ensures View() == Record(old(View()), v, left)
    {
      if v.PadAndCircle? {
        currentInput := currentInput + 1;
      }
      ResizePrefix(recordedInput, currentByte, currentByte + RECORD);
      recordedInput := Resize(recordedInput, currentByte + RECORD);
      recordedInput := recordedInput[..currentByte] + Encode(v, left);
      currentByte := currentByte + RECORD;
    }

    method HandleInput(v: Input, left: Leftover) returns (w: Input)
      requires Safe(View())
      modifies this
      ensures (View(), w) == Handle(old(View()), v, left)
    {
      w := v;
      if playMode == Playing {
        w := Play(v);
        CheckInputEnd();
      } else if playMode == Recording {
        RecordInput(v, left);
      }
    }

    method LoadState(s: Savestate, readOnly: bool) returns (error: Option<LoadError>)
      modifies this
      ensures error.None? ==> Load(old(View()), s, readOnly) == Ok(View())
      ensures error.Some? ==> Load(old(View()), s, readOnly) == Err(error.value)
      ensures error.Some? ==> View() == Moved(old(View()), s)
    {
      currentByte := s.currentByte;
      currentInput := s.currentInput;
      if id != s.id {
        return Some(if s.id == 0 then MustCloseMovie else MustLoadSameMovie);
      }
      if id != 0 {
        if !readOnly {
          recordedInput := s.recorded;
        }
        if s.postMovie {
          playMode := MovieFinished;
          return None;
        }
        if readOnly {
          if |s.recorded| >= |recordedInput| {
            return Some(FutureEvent);
          }
          if s.recorded != recordedInput[..|s.recorded|] {
            return Some(TimelineMismatch);
          }
          playMode := Playing;
        } else {
          playMode := Recording;
        }
      }
      return None;
    }

    method Shutdown()
      modifies this
      ensures View() == CLEARED
    {
      playMode := NoMovie;
      recordedInput := [];
      currentByte := 0;
      currentInput := 0;
      id := 0;
    }
  }

  method GetInputCount(input: seq<byte>) returns (inputCount: nat)
    ensures inputCount == CountPads(input)
  {
    inputCount := 0;
    var pos := 0;
    while pos < |input|
      invariant 0 <= pos && (pos <= |input| ==> inputCount + CountPads(input[pos..]) == CountPads(input))
      invariant pos > |input| ==> inputCount == CountPads(input)
    {
      if |input| < pos + RECORD {
        break;
      }
      if input[pos] == 0 {
        inputCount := inputCount + 1;
      }
      assert input[pos..][RECORD..] == input[pos + RECORD..];
      pos := pos + RECORD;
    }
  }
}
