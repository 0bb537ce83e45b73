/** `DecodeADPCM`: frames of a header byte and seven bytes of two 4-bit samples each, through a second order filter. */
module Adpcm {
  import opened Bytes
  import opened Common

  const FRAME_LEN: nat := 8
  const PAIRS_PER_FRAME: nat := 7

  /** The two samples before the next one. */
  datatype State = State(yn1: s16, yn2: s16)

  type Coefficients = c: seq<s16> | |c| == 16 witness seq(16, _ => 0)

  // ---------------------------------------------------------------- one sample

  function SignedNibble(n: nat): (s: int)
    requires n < 16
    ensures -8 <= s < 8 && (s - n) % 16 == 0
  {
    if n < 8 then n else n - 16
  }

  lemma {:induction false} ScaleBound(n: nat)
    requires n <= 15
    ensures Pow2(n) <= 0x8000
    decreases 15 - n
  {
    if n < 15 {
      ScaleBound(n + 1);
    } else {
      LargestScale();
    }
  }

  lemma LargestScale()
    ensures Pow2(15) == 0x8000
  {
    assert Pow2(5) == 0x20;
    assert Pow2(10) == 0x400;
  }

  /** The filter in 11 bit fixed point, before it is scaled back. */
  function FilterSum(nibble: int, scale: nat, coef1: int, coef2: int, y: State): int {
    nibble * scale * 0x800 + 0x400 + coef1 * y.yn1 + coef2 * y.yn2
  }

  /** `>> 11` rounds towards minus infinity. */
  function Sample(nibble: int, scale: nat, coef1: int, coef2: int, y: State): s16 {
    Clamp16(FilterSum(nibble, scale, coef1, coef2, y) / 0x800)
  }

  /** The output that is fed back. */
  function Push(y: State, sample: s16): State {
    State(sample, y.yn1)
  }

  // ---------------------------------------------------------------- a stream of samples

  datatype Decoded = Decoded(samples: seq<s16>, state: State)

  /** The two samples of one byte. */
  function Pair(header: byte, b: byte, coeffs: Coefficients, y: State): (d: Decoded)
    ensures |d.samples| == 2
  {
    var scale, idx := Pow2(header % 16), header / 16 % 8;
    var first := Sample(SignedNibble(b / 16), scale, coeffs[2 * idx], coeffs[2 * idx + 1], y);
    var next := Push(y, first);
    var second := Sample(SignedNibble(b % 16), scale, coeffs[2 * idx], coeffs[2 * idx + 1], next);
    Decoded([first, second], Push(next, second))
  }

  /** Where pair `p` and the header of its frame lie. */
  function HeaderAt(p: nat): nat {
    if p < PAIRS_PER_FRAME then 0 else FRAME_LEN + HeaderAt(p - PAIRS_PER_FRAME)
  }

  function DataAt(p: nat): nat {
    if p < PAIRS_PER_FRAME then 1 + p else FRAME_LEN + DataAt(p - PAIRS_PER_FRAME)
  }

  lemma {:induction false} InOrder(p: nat, q: nat)
    requires p <= q
    ensures HeaderAt(p) < DataAt(p) <= DataAt(q)
    decreases q
  {
    if p >= PAIRS_PER_FRAME {
      InOrder(p - PAIRS_PER_FRAME, q - PAIRS_PER_FRAME);
    } else if q >= PAIRS_PER_FRAME {
      InOrder(0, q - PAIRS_PER_FRAME);
    }
  }

  /** The data has the headers and bytes of `n` pairs. */
  predicate Holds(data: seq<byte>, n: nat) {
    n > 0 ==> DataAt(n - 1) < |data|
  }

  lemma EarlierHeld(data: seq<byte>, n: nat, p: nat)
    requires Holds(data, n) && p < n
    ensures HeaderAt(p) < DataAt(p) < |data| && Holds(data, p)
  {
    InOrder(p, n - 1);
    if p > 0 {
      InOrder(p - 1, n - 1);
    }
  }

  /** One more byte. */
  function Extend(d: Decoded, header: byte, b: byte, coeffs: Coefficients): (e: Decoded)
    ensures |e.samples| == |d.samples| + 2
  {
    var pair := Pair(header, b, coeffs, d.state);
    Decoded(d.samples + pair.samples, pair.state)
  }

  lemma ExtendConcat(first: seq<s16>, d: Decoded, header: byte, b: byte, coeffs: Coefficients)
    ensures var e := Extend(d, header, b, coeffs);
            Extend(Decoded(first + d.samples, d.state), header, b, coeffs) == Decoded(first + e.samples, e.state)
  {
    assert (first + d.samples) + Pair(header, b, coeffs, d.state).samples == first + (d.samples + Pair(header, b, coeffs, d.state).samples);
  }

  /** The first `n` pairs. */
  function Decode(data: seq<byte>, n: nat, coeffs: Coefficients, y: State): (d: Decoded)
    requires Holds(data, n)
    ensures |d.samples| == 2 * n
  {
    if n == 0 then Decoded([], y)
    else
      EarlierHeld(data, n, n - 1);
      Extend(Decode(data, n - 1, coeffs, y), data[HeaderAt(n - 1)], data[DataAt(n - 1)], coeffs)
  }

  lemma {:induction false} Shifted(frames: nat, p: nat)
    ensures HeaderAt(PAIRS_PER_FRAME * frames + p) == FRAME_LEN * frames + HeaderAt(p)
    ensures DataAt(PAIRS_PER_FRAME * frames + p) == FRAME_LEN * frames + DataAt(p)
  {
    if frames > 0 {
      Shifted(frames - 1, p);
    }
  }

  lemma WholeFramesHeld(a: seq<byte>, frames: nat)
    requires |a| == FRAME_LEN * frames
    ensures Holds(a, PAIRS_PER_FRAME * frames)
  {
    if frames > 0 {
      Shifted(frames - 1, PAIRS_PER_FRAME - 1);
    }
  }

  lemma JoinedHeld(a: seq<byte>, b: seq<byte>, frames: nat, n: nat)
    requires |a| == FRAME_LEN * frames && Holds(b, n)
    ensures Holds(a + b, PAIRS_PER_FRAME * frames + n)
  {
    if n > 0 {
      Shifted(frames, n - 1);
    } else {
      WholeFramesHeld(a, frames);
    }
  }

  /** More data behind those of `n` pairs makes no difference. */
  lemma {:induction false} OnlyTheFirst(data: seq<byte>, more: seq<byte>, n: nat, coeffs: Coefficients, y: State)
    requires Holds(data, n)
    ensures Holds(data + more, n) && Decode(data + more, n, coeffs, y) == Decode(data, n, coeffs, y)
  {
    if n > 0 {
      EarlierHeld(data, n, n - 1);
      OnlyTheFirst(data, more, n - 1, coeffs, y);
    }
  }

  /** `q` pairs of `all` from `y` are `first` and then `p` pairs of `b` from `y'`. */
  predicate Chains(all: seq<byte>, q: nat, b: seq<byte>, p: nat, first: seq<s16>, coeffs: Coefficients, y: State, y': State) {
    && Holds(all, q) && Holds(b, p)
    && Decode(all, q, coeffs, y) == Decoded(first + Decode(b, p, coeffs, y').samples, Decode(b, p, coeffs, y').state)
  }

  lemma ChainNext(all: seq<byte>, q: nat, b: seq<byte>, p: nat, first: seq<s16>, coeffs: Coefficients, y: State, y': State)
    requires Holds(all, q + 1) && Holds(b, p + 1) && Chains(all, q, b, p, first, coeffs, y, y')
    requires HeaderAt(q) < |all| && DataAt(q) < |all| && HeaderAt(p) < |b| && DataAt(p) < |b|
    requires all[HeaderAt(q)] == b[HeaderAt(p)] && all[DataAt(q)] == b[DataAt(p)]
    ensures Chains(all, q + 1, b, p + 1, first, coeffs, y, y')
  {
    ExtendConcat(first, Decode(b, p, coeffs, y'), b[HeaderAt(p)], b[DataAt(p)], coeffs);
  }

  lemma ChainStart(a: seq<byte>, b: seq<byte>, q: nat, coeffs: Coefficients, y: State)
    requires Holds(a, q)
    ensures var first := Decode(a, q, coeffs, y);
            Chains(a + b, q, b, 0, first.samples, coeffs, y, first.state)
  {
    var first := Decode(a, q, coeffs, y);
    OnlyTheFirst(a, b, q, coeffs, y);
    assert first.samples + [] == first.samples;
  }

  /** Pair `p` of `b` is pair `at` of all. */
  lemma ChainOne(a: seq<byte>, b: seq<byte>, frames: nat, at: nat, p: nat, at': nat, p': nat, first: seq<s16>, coeffs: Coefficients,
                 y: State, y': State)
    requires |a| == FRAME_LEN * frames && at == PAIRS_PER_FRAME * frames + p && at' == at + 1 && p' == p + 1 && Holds(b, p')
    requires Chains(a + b, at, b, p, first, coeffs, y, y')
    ensures Chains(a + b, at', b, p', first, coeffs, y, y')
  {
    EarlierHeld(b, p', p);
    JoinedHeld(a, b, frames, p');
    ChainStep(a, b, frames, p);
    ChainNext(a + b, at, b, p, first, coeffs, y, y');
  }

  lemma {:induction false} FramesChainTo(a: seq<byte>, b: seq<byte>, frames: nat, at: nat, p: nat, n: nat, first: Decoded,
                                         coeffs: Coefficients, y: State)
    requires |a| == FRAME_LEN * frames && Holds(a, PAIRS_PER_FRAME * frames) && first == Decode(a, PAIRS_PER_FRAME * frames, coeffs, y)
    requires at == PAIRS_PER_FRAME * frames + p && p <= n && Holds(b, n)
    ensures Chains(a + b, at, b, p, first.samples, coeffs, y, first.state)
    decreases p
  {
    if p == 0 {
      ChainStart(a, b, at, coeffs, y);
    } else {
      FramesChainTo(a, b, frames, at - 1, p - 1, n, first, coeffs, y);
      PartHeld(b, n, p);
      ChainOne(a, b, frames, at - 1, p - 1, at, p, first.samples, coeffs, y, first.state);
    }
  }

  lemma PartHeld(b: seq<byte>, n: nat, p: nat)
    requires Holds(b, n) && p <= n
    ensures Holds(b, p)
  {
    if p < n {
      EarlierHeld(b, n, p);
    }
  }

  /**
   Frame chaining: decoding whole frames and then, with the state they leave, what follows them gives the same
   samples and state as decoding everything at once.
   */
  lemma FramesChain(a: seq<byte>, b: seq<byte>, frames: nat, n: nat, coeffs: Coefficients, y: State)
    requires |a| == FRAME_LEN * frames && Holds(b, n)
    ensures Holds(a, PAIRS_PER_FRAME * frames) && Holds(a + b, PAIRS_PER_FRAME * frames + n)
    ensures var first := Decode(a, PAIRS_PER_FRAME * frames, coeffs, y);
            var rest := Decode(b, n, coeffs, first.state);
            Decode(a + b, PAIRS_PER_FRAME * frames + n, coeffs, y) == Decoded(first.samples + rest.samples, rest.state)
  {
    WholeFramesHeld(a, frames);
    var first := Decode(a, PAIRS_PER_FRAME * frames, coeffs, y);
    FramesChainTo(a, b, frames, PAIRS_PER_FRAME * frames + n, n, n, first, coeffs, y);
  }

  lemma ChainStep(a: seq<byte>, b: seq<byte>, frames: nat, p: nat)
    requires |a| == FRAME_LEN * frames && HeaderAt(p) < |b| && DataAt(p) < |b|
    ensures var q := PAIRS_PER_FRAME * frames + p;
            && HeaderAt(q) < |a + b| && DataAt(q) < |a + b|
            && (a + b)[HeaderAt(q)] == b[HeaderAt(p)] && (a + b)[DataAt(q)] == b[DataAt(p)]
  {
    Shifted(frames, p);
  }

  // ---------------------------------------------------------------- the recurrence

  lemma {:induction false} PairPlaces(p: nat)
    ensures HeaderAt(p) == 8 * (p / 7) && DataAt(p) == 8 * (p / 7) + 1 + p % 7
  {
    if p >= 7 {
      PairPlaces(p - 7);
    }
  }

  /** The sample before sample `i` and the one before that; the first ones follow the history. */
  function Before(samples: seq<s16>, y: State, i: nat): State
    requires i <= |samples|
  {
    State(if i >= 1 then samples[i - 1] else y.yn1,
          if i >= 2 then samples[i - 2] else if i == 1 then y.yn1 else y.yn2)
  }

  /** The filter, rounded down from half a unit up and clamped to 16 bits, on one nibble under one header. */
  predicate Follows(sample: s16, header: byte, nibble: nat, coeffs: Coefficients, y: State) {
    var signed := if nibble >= 8 then nibble - 16 else nibble;
    var c1, c2 := coeffs[2 * (header / 16 % 8)], coeffs[2 * (header / 16 % 8) + 1];
    var exact := (signed * Pow2(header % 16) * 2048 + 1024 + c1 * y.yn1 + c2 * y.yn2) / 2048;
    sample == if exact > 32767 then 32767 else if exact < -32768 then -32768 else exact
  }

  /** Sample `i` follows from the two before it, by the header of its frame and its half of its byte, high half first. */
  predicate SampleFollows(data: seq<byte>, samples: seq<s16>, coeffs: Coefficients, y: State, i: nat)
    requires i < |samples|
  {
    var at := 8 * (i / 14);
    && at + 1 + i % 14 / 2 < |data|
    && var b := data[at + 1 + i % 14 / 2];
       Follows(samples[i], data[at], if i % 2 == 0 then b / 16 else b % 16, coeffs, Before(samples, y, i))
  }

  /** Every sample follows from those before it, and the last two are the history left for the next call. */
  ghost predicate IsDecoding(data: seq<byte>, coeffs: Coefficients, y: State, samples: seq<s16>, after: State) {
    && (forall i: nat :: i < |samples| ==> SampleFollows(data, samples, coeffs, y, i))
    && after == Before(samples, y, |samples|)
  }

  lemma PairFollows(header: byte, b: byte, coeffs: Coefficients, y: State)
    ensures var d := Pair(header, b, coeffs, y);
            && Follows(d.samples[0], header, b / 16, coeffs, y)
            && Follows(d.samples[1], header, b % 16, coeffs, State(d.samples[0], y.yn1))
            && d.state == State(d.samples[1], d.samples[0])
  {
  }

  /** What is decoded is the recurrence of the filter over positions. */
  lemma {:induction false} DecodeIsTheRecurrence(data: seq<byte>, n: nat, coeffs: Coefficients, y: State)
    requires Holds(data, n)
    ensures IsDecoding(data, coeffs, y, Decode(data, n, coeffs, y).samples, Decode(data, n, coeffs, y).state)
  {
    if n > 0 {
      EarlierHeld(data, n, n - 1);
      DecodeIsTheRecurrence(data, n - 1, coeffs, y);
      RecurrenceGrows(data, n - 1, Decode(data, n - 1, coeffs, y), coeffs, y);
    }
  }

  lemma RecurrenceGrows(data: seq<byte>, p: nat, d: Decoded, coeffs: Coefficients, y: State)
    requires HeaderAt(p) < |data| && DataAt(p) < |data| && |d.samples| == 2 * p && IsDecoding(data, coeffs, y, d.samples, d.state)
    ensures var e := Extend(d, data[HeaderAt(p)], data[DataAt(p)], coeffs);
            IsDecoding(data, coeffs, y, e.samples, e.state)
  {
    var header, b := data[HeaderAt(p)], data[DataAt(p)];
    var e := Extend(d, header, b, coeffs);
    PairFollows(header, b, coeffs, d.state);
    PairPlaces(p);
    forall i: nat | i < |e.samples|
      ensures SampleFollows(data, e.samples, coeffs, y, i)
    {
      if i < 2 * p {
        assert SampleFollows(data, d.samples, coeffs, y, i);
        assert Before(e.samples, y, i) == Before(d.samples, y, i);
      } else {
        PlaceOfSample(i, p);
        assert Before(e.samples, y, i) == if i == 2 * p then d.state else State(e.samples[2 * p], d.state.yn1);
      }
    }
  }

  lemma PlaceOfSample(i: nat, p: nat)
    requires i == 2 * p || i == 2 * p + 1
    ensures i / 14 == p / 7 && i % 14 / 2 == p % 7 && (i % 2 == 0 <==> i == 2 * p)
  {
  }

  // ---------------------------------------------------------------- 32-bit arithmetic

  predicate FitsInt(x: int) {
    -0x8000_0000 <= x <= 0x7FFF_FFFF
  }

  /** The largest value of a coefficient times a sample, and the smallest. */
  function MostProduct(c: s16): int {
    if c >= 0 then c * 0x7FFF else c * -0x8000
  }

  function LeastProduct(c: s16): int {
    if c >= 0 then c * -0x8000 else c * 0x7FFF
  }

  lemma ProductBounds(c: s16, y: s16)
    ensures LeastProduct(c) <= c * y <= MostProduct(c)
  {
    var d: int, up: int, down: int := c, 0x7FFF - y as int, y as int + 0x8000;
    if d >= 0 {
      NatProduct(d, up);
      NatProduct(d, down);
    } else {
      NatProduct(-d, up);
      NatProduct(-d, down);
      assert (-d) * up == -(d * up) && (-d) * down == -(d * down);
    }
    assert d * up == d * 0x7FFF - d * y && d * down == d * y + d * 0x8000;
  }

  lemma NatProduct(a: nat, b: nat)
    ensures a * b >= 0
  {
  }

  /** The terms of the filter for the loudest positive and negative nibble stay in 32 bits. */
  predicate CoefficientsOk(c1: s16, c2: s16) {
    && FitsInt(7 * 0x8000 * 0x800 + 0x400 + MostProduct(c1) + MostProduct(c2))
    && FitsInt(-8 * 0x8000 * 0x800 + 0x400 + LeastProduct(c1) + LeastProduct(c2))
  }

  predicate InputOk(nibble: int, scale: nat) {
    -8 <= nibble < 8 && 1 <= scale <= 0x8000
  }

  lemma NibbleBounds(nibble: int, scale: nat)
    requires InputOk(nibble, scale)
    ensures -8 * 0x8000 <= nibble * scale <= 7 * 0x8000
  {
    assert (7 - nibble) * scale >= 0 && (nibble + 8) * scale >= 0;
  }

  /** Every nibble under every header is such an input. */
  lemma NibblesAreInputs(header: byte, n: nat)
    requires n < 16
    ensures InputOk(SignedNibble(n), Pow2(header % 16))
  {
    ScaleBound(header % 16);
  }

  /** The sum, and what there is of it after each addition, fits the 32 bits it is computed in. */
  predicate SumFits(nibble: int, scale: nat, c1: int, c2: int, y: State) {
    var x := nibble * scale * 0x800;
    FitsInt(x) && FitsInt(x + 0x400) && FitsInt(x + 0x400 + c1 * y.yn1) && FitsInt(FilterSum(nibble, scale, c1, c2, y))
  }

  lemma CoefficientsSuffice(nibble: int, scale: nat, c1: s16, c2: s16, y: State)
    requires InputOk(nibble, scale) && CoefficientsOk(c1, c2)
    ensures SumFits(nibble, scale, c1, c2, y)
  {
    NibbleBounds(nibble, scale);
    ProductBounds(c1, y.yn1);
    ProductBounds(c2, y.yn2);
    ProductBounds(c2, 0);
  }

  /** The history that makes a product largest, or smallest. */
  function Worst(c: s16, high: bool): s16 {
    if (c >= 0) == high then 0x7FFF else -0x8000
  }

  /** Otherwise the largest scale and the loudest positive or negative nibble overflow on some history. */
  lemma CoefficientsNecessary(c1: s16, c2: s16) returns (n: nat, y: State)
    requires !CoefficientsOk(c1, c2)
    ensures n < 16 && !SumFits(SignedNibble(n), 0x8000, c1, c2, y)
  {
    var high, low := State(Worst(c1, true), Worst(c2, true)), State(Worst(c1, false), Worst(c2, false));
    assert FilterSum(7, 0x8000, c1, c2, high) == 7 * 0x8000 * 0x800 + 0x400 + MostProduct(c1) + MostProduct(c2);
    assert FilterSum(-8, 0x8000, c1, c2, low) == -8 * 0x8000 * 0x800 + 0x400 + LeastProduct(c1) + LeastProduct(c2);
    if FitsInt(FilterSum(7, 0x8000, c1, c2, high)) {
      n, y := 8, low;
    } else {
      n, y := 7, high;
    }
  }

  /** Both sums of a byte fit. */
  predicate PairFits(header: byte, b: byte, coeffs: Coefficients, y: State) {
    var scale, idx := Pow2(header % 16), header / 16 % 8;
    var first := Sample(SignedNibble(b / 16), scale, coeffs[2 * idx], coeffs[2 * idx + 1], y);
    && SumFits(SignedNibble(b / 16), scale, coeffs[2 * idx], coeffs[2 * idx + 1], y)
    && SumFits(SignedNibble(b % 16), scale, coeffs[2 * idx], coeffs[2 * idx + 1], Push(y, first))
  }

  /** All sums of the first `n` pairs fit. */
  predicate DecodeFits(data: seq<byte>, n: nat, coeffs: Coefficients, y: State)
    requires Holds(data, n)
  {
    if n == 0 then true
    else
      EarlierHeld(data, n, n - 1);
      && DecodeFits(data, n - 1, coeffs, y)
      && PairFits(data[HeaderAt(n - 1)], data[DataAt(n - 1)], coeffs, Decode(data, n - 1, coeffs, y).state)
  }

  ghost predicate NeverOverflows(coeffs: Coefficients) {
    forall data: seq<byte>, n: nat, y: State :: Holds(data, n) ==> DecodeFits(data, n, coeffs, y)
  }

  ghost predicate AllCoefficientsOk(coeffs: Coefficients) {
    forall idx :: 0 <= idx < 8 ==> CoefficientsOk(coeffs[2 * idx], coeffs[2 * idx + 1])
  }

  lemma PairsFit(header: byte, b: byte, coeffs: Coefficients, y: State)
    requires AllCoefficientsOk(coeffs)
    ensures PairFits(header, b, coeffs, y)
  {
    var scale, idx := Pow2(header % 16), header / 16 % 8;
    var first := Sample(SignedNibble(b / 16), scale, coeffs[2 * idx], coeffs[2 * idx + 1], y);
    NibblesAreInputs(header, b / 16);
    NibblesAreInputs(header, b % 16);
    CoefficientsSuffice(SignedNibble(b / 16), scale, coeffs[2 * idx], coeffs[2 * idx + 1], y);
    CoefficientsSuffice(SignedNibble(b % 16), scale, coeffs[2 * idx], coeffs[2 * idx + 1], Push(y, first));
  }

  lemma {:induction false} StreamsFit(data: seq<byte>, n: nat, coeffs: Coefficients, y: State)
    requires AllCoefficientsOk(coeffs) && Holds(data, n)
    ensures DecodeFits(data, n, coeffs, y)
  {
    if n > 0 {
      EarlierHeld(data, n, n - 1);
      StreamsFit(data, n - 1, coeffs, y);
      PairsFit(data[HeaderAt(n - 1)], data[DataAt(n - 1)], coeffs, Decode(data, n - 1, coeffs, y).state);
    }
  }

  /** A header and a byte that overflow, for coefficients that are not within the bound. */
  lemma SomeByteOverflows(coeffs: Coefficients, idx: nat) returns (header: byte, b: byte, y: State)
    requires idx < 8 && !CoefficientsOk(coeffs[2 * idx], coeffs[2 * idx + 1])
    ensures !PairFits(header, b, coeffs, y)
  {
    var n;
    n, y := CoefficientsNecessary(coeffs[2 * idx], coeffs[2 * idx + 1]);
    header, b := 16 * idx + 15, 16 * n;
    LargestScale();
    assert header % 16 == 15 && header / 16 % 8 == idx && b / 16 == n;
  }

  /**
   The sums do not always fit 32 bits: they do in every decoding, whatever the data and the history, if and only if
   each of the eight pairs of coefficients is within a bound.
   */
  lemma NeverOverflowsIff(coeffs: Coefficients)
    ensures NeverOverflows(coeffs) <==> AllCoefficientsOk(coeffs)
  {
    if AllCoefficientsOk(coeffs) {
      forall data: seq<byte>, n: nat, y: State | Holds(data, n)
        ensures DecodeFits(data, n, coeffs, y)
      {
        StreamsFit(data, n, coeffs, y);
      }
    } else {
      var idx :| 0 <= idx < 8 && !CoefficientsOk(coeffs[2 * idx], coeffs[2 * idx + 1]);
      var header, b, y := SomeByteOverflows(coeffs, idx);
      var data := [header, b];
      assert Holds(data, 1) && data[HeaderAt(0)] == header && data[DataAt(0)] == b;
      assert Decode(data, 0, coeffs, y).state == y;
      assert !DecodeFits(data, 1, coeffs, y);
    }
  }

  /** Coefficients that two 16-bit fields can hold, and a history, for which the sum overflows. */
  lemma FilterCanOverflow()
    ensures !FitsInt(FilterSum(7, 0x8000, -0x8000, -0x8000, State(-0x8000, -0x8000)))
  {
  }

  // ---------------------------------------------------------------- the loops

  function PairCount(sampleCount: nat): nat {
    (sampleCount + 1) / 2
  }

  /** The pairs of the first frames. */
  function PairsDone(frames: nat, sampleCount: nat): nat {
    if 14 * frames < sampleCount then 7 * frames else PairCount(sampleCount)
  }

  lemma MorePairs(framei: nat, k: nat, sampleCount: nat)
    requires 14 * framei + 2 * k < sampleCount
    ensures 7 * framei + k < PairCount(sampleCount)
  {
  }

  lemma FrameEnds(framei: nat, k: nat, sampleCount: nat)
    requires 7 * framei + k <= PairCount(sampleCount)
    requires k <= 7 && (k == 7 || 14 * framei + 2 * k >= sampleCount)
    ensures 7 * framei + k == PairsDone(framei + 1, sampleCount)
  {
  }

  class Decoder {
    var yn1: s16
    var yn2: s16
    /** One sample for both channels. */
    var output: seq<s16>

    constructor ()
      ensures State(yn1, yn2) == State(0, 0) && output == []
    {
      yn1, yn2, output := 0, 0, [];
    }

    method DecodeSample(nibble: int, scale: nat, coef1: s16, coef2: s16)
      modifies this
      ensures var s := Sample(nibble, scale, coef1, coef2, old(State(yn1, yn2)));
              output == old(output) + [s] && State(yn1, yn2) == State(s, old(yn1))
    {
      var xn := nibble * scale;
      var val := (xn * 0x800 + 0x400 + coef1 * yn1 + coef2 * yn2) / 0x800;
      val := if val < -0x8000 then -0x8000 else if val > 0x7FFF then 0x7FFF else val;
      yn2 := yn1;
      yn1 := val;
      output := output + [val];
    }

    /** Both nibbles of a byte. */
    method DecodeByte(header: byte, b: byte, coeffs: Coefficients)
      modifies this
      ensures var d := Pair(header, b, coeffs, old(State(yn1, yn2)));
              output == old(output) + d.samples && State(yn1, yn2) == d.state
    {
      var scale, idx := Pow2(header % 16), header / 16 % 8;
      DecodeSample(SignedNibble(b / 16), scale, coeffs[2 * idx], coeffs[2 * idx + 1]);
      DecodeSample(SignedNibble(b % 16), scale, coeffs[2 * idx], coeffs[2 * idx + 1]);
    }

    ghost predicate At(data: seq<byte>, n: nat, coeffs: Coefficients, y: State)
      reads this
    {
      Holds(data, n) && Decoded(output, State(yn1, yn2)) == Decode(data, n, coeffs, y)
    }

    /** One round of the inner loop: pair `k` of the frame. */
    method DecodePair(data: seq<byte>, framei: nat, k: nat, ghost n: nat, coeffs: Coefficients, ghost y: State)
      requires At(data, 7 * framei + k, coeffs, y) && Holds(data, n) && k < PAIRS_PER_FRAME && 7 * framei + k < n
      modifies this
      ensures At(data, 7 * framei + k + 1, coeffs, y)
    {
      NextPair(data, n, framei, k);
      DecodeByte(data[framei * FRAME_LEN], data[framei * FRAME_LEN + 1 + k], coeffs);
    }

    /** The inner loop: one frame, or what is left of the samples. */
    method DecodeFrame(data: seq<byte>, framei: nat, sampleCount: nat, coeffs: Coefficients, ghost y: State)
      requires Holds(data, PairCount(sampleCount)) && 14 * framei < sampleCount && At(data, 7 * framei, coeffs, y)
      modifies this
      ensures At(data, PairsDone(framei + 1, sampleCount), coeffs, y)
    {
      var outputi: nat := framei * 14;
      var k: nat := 0;
      ghost var n := PairCount(sampleCount);
      while k < PAIRS_PER_FRAME && outputi < sampleCount
        invariant k <= PAIRS_PER_FRAME && outputi == 14 * framei + 2 * k && 7 * framei + k <= n
        invariant At(data, 7 * framei + k, coeffs, y)
      {
        MorePairs(framei, k, sampleCount);
        DecodePair(data, framei, k, n, coeffs, y);
        outputi := outputi + 2;
        k := k + 1;
      }
      FrameEnds(framei, k, sampleCount);
    }

    /** The outer loop. */
    method DecodeFrames(data: seq<byte>, sampleCount: nat, coeffs: Coefficients)
      requires Holds(data, PairCount(sampleCount)) && output == []
      modifies this
      ensures At(data, PairCount(sampleCount), coeffs, old(State(yn1, yn2)))
    {
      ghost var y := State(yn1, yn2);
      var numFrames := (sampleCount + 13) / 14;
      var framei: nat := 0;
      while framei < numFrames
        invariant framei <= numFrames && At(data, PairsDone(framei, sampleCount), coeffs, y)
      {
        DecodeFrame(data, framei, sampleCount, coeffs, y);
        framei := framei + 1;
      }
    }

    method DecodeADPCM(data: seq<byte>, sampleCount: nat, coeffs: Coefficients)
      requires Holds(data, PairCount(sampleCount))
      modifies this
      ensures Decoded(output, State(yn1, yn2)) == Decode(data, PairCount(sampleCount), coeffs, old(State(yn1, yn2)))
      ensures |output| == sampleCount + sampleCount % 2
      ensures IsDecoding(data, coeffs, old(State(yn1, yn2)), output, State(yn1, yn2))
    {
      output := [];
      DecodeIsTheRecurrence(data, PairCount(sampleCount), coeffs, State(yn1, yn2));
      DecodeFrames(data, sampleCount, coeffs);
    }
  }

  lemma NextPair(data: seq<byte>, n: nat, framei: nat, k: nat)
    requires Holds(data, n) && k < PAIRS_PER_FRAME && 7 * framei + k < n
    ensures HeaderAt(7 * framei + k) == framei * FRAME_LEN && DataAt(7 * framei + k) == framei * FRAME_LEN + 1 + k
    ensures framei * FRAME_LEN + 1 + k < |data| && Holds(data, 7 * framei + k + 1)
  {
    Shifted(framei, k);
    EarlierHeld(data, n, 7 * framei + k);
  }
}
