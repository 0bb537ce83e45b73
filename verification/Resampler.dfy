/** `AudioCore::AudioInterp`: a resampler that keeps two samples and a fixed-point position between calls. */
module Resampler {
  import opened Common

  const SCALE: nat := 0x100_0000
  const U64: int := 0x1_0000_0000_0000_0000

  /** The rate in fixed point; the cast drops what is finer. */
  function StepSize(rate: real): (step: nat)
    requires rate > 0.0
    ensures step as real <= rate * 16777216.0 < step as real + 1.0
  {
    var product := rate * SCALE as real;
    product.Floor
  }

  datatype Stereo = Stereo(left: s16, right: s16)

  datatype State = State(xn1: Stereo, xn2: Stereo, fposition: nat)

  /** The interpolation function: fraction and three neighbouring samples. */
  type Kernel = (nat, Stereo, Stereo, Stereo) -> Stereo

  // ---------------------------------------------------------------- specification

  /** The position after `k` steps. */
  function Position(start: nat, step: nat, k: nat): (p: nat)
  {
    start + k * step
  }

  predicate InRange(buffer: seq<Stereo>, position: nat) {
    position / SCALE + 2 < |buffer|
  }

  /** The output for one position of a buffer. */
  function Tap(buffer: seq<Stereo>, position: nat, fn: Kernel): Stereo
    requires InRange(buffer, position)
  {
    var i := position / SCALE;
    fn(position % SCALE, buffer[i], buffer[i + 1], buffer[i + 2])
  }

  /** How many outputs there are before either the room or the data runs out. */
  function Count(buffer: seq<Stereo>, start: nat, step: nat, room: nat): (n: nat)
    ensures n <= room
    decreases room
  {
    if room == 0 || !InRange(buffer, start) then 0 else 1 + Count(buffer, start + step, step, room - 1)
  }

  /** How far the input has been used up: to the end when the data ran out, else to the last output's sample. */
  function Consumed(buffer: seq<Stereo>, start: nat, step: nat, room: nat): (c: nat)
    requires |buffer| >= 2
    ensures c + 2 <= |buffer|
  {
    var n := Count(buffer, start, step, room);
    if n < room then |buffer| - 2
    else if n == 0 then 0
    else
      CountInRange(buffer, start, step, room, n - 1);
      Position(start, step, n - 1) / SCALE
  }

  lemma PositionNext(start: nat, step: nat, k: nat)
    ensures Position(start + step, step, k) == Position(start, step, k + 1)
    ensures Position(start, step, k + 1) == Position(start, step, k) + step
  {
    assert (k + 1) * step == k * step + step;
  }

  lemma {:induction false} CountInRange(buffer: seq<Stereo>, start: nat, step: nat, room: nat, k: nat)
    requires k < Count(buffer, start, step, room)
    ensures InRange(buffer, Position(start, step, k))
    decreases room
  {
    if k > 0 {
      PositionNext(start, step, k - 1);
      CountInRange(buffer, start + step, step, room - 1, k - 1);
    }
  }

  /** If there is room left, the next position is beyond the data. */
  lemma {:induction false} CountStops(buffer: seq<Stereo>, start: nat, step: nat, room: nat)
    requires Count(buffer, start, step, room) < room
    ensures !InRange(buffer, Position(start, step, Count(buffer, start, step, room)))
    decreases room
  {
    if InRange(buffer, start) {
      CountStops(buffer, start + step, step, room - 1);
      PositionNext(start, step, Count(buffer, start + step, step, room - 1));
    }
  }

  function Outputs(buffer: seq<Stereo>, start: nat, step: nat, n: nat, fn: Kernel): (out: seq<Stereo>)
    requires forall k :: 0 <= k < n ==> InRange(buffer, Position(start, step, k))
    ensures |out| == n && forall k :: 0 <= k < n ==> out[k] == Tap(buffer, Position(start, step, k), fn)
  {
    seq(n, k requires 0 <= k < n => Tap(buffer, Position(start, step, k), fn))
  }

  lemma OutputsNext(buffer: seq<Stereo>, start: nat, step: nat, n: nat, fn: Kernel)
    requires forall k :: 0 <= k <= n ==> InRange(buffer, Position(start, step, k))
    ensures Outputs(buffer, start, step, n + 1, fn) ==
            Outputs(buffer, start, step, n, fn) + [Tap(buffer, Position(start, step, n), fn)]
  {
  }

  datatype Result = Result(state: State, input: seq<Stereo>, output: seq<Stereo>)

  /** The two kept samples in front of the input. */
  function Buffer(state: State, input: seq<Stereo>): seq<Stereo> {
    [state.xn2, state.xn1] + input
  }

  /** The position never falls behind the samples that are given up. */
  lemma PositionCoversConsumed(buffer: seq<Stereo>, start: nat, step: nat, room: nat)
    requires |buffer| >= 2
    ensures Consumed(buffer, start, step, room) * SCALE <= Position(start, step, Count(buffer, start, step, room))
  {
    var n := Count(buffer, start, step, room);
    if n < room {
      CountStops(buffer, start, step, room);
    } else if n > 0 {
      PositionNext(start, step, n - 1);
    }
  }

  /** `StepOverSamples` with room for `room` more outputs. */
  function Resample(state: State, input: seq<Stereo>, step: nat, room: nat, fn: Kernel): Result {
    var buffer := Buffer(state, input);
    var n := Count(buffer, state.fposition, step, room);
    var c := Consumed(buffer, state.fposition, step, room);
    PositionCoversConsumed(buffer, state.fposition, step, room);
    assert forall k :: 0 <= k < n ==> InRange(buffer, Position(state.fposition, step, k)) by {
      forall k | 0 <= k < n ensures InRange(buffer, Position(state.fposition, step, k)) {
        CountInRange(buffer, state.fposition, step, room, k);
      }
    }
    Result(State(buffer[c + 1], buffer[c], Position(state.fposition, step, n) - c * SCALE),
           buffer[c + 2..],
           Outputs(buffer, state.fposition, step, n, fn))
  }

  /**
   As long as the buffer and one step are below 2^64 in fixed point, the 64-bit position does not wrap around:
   it is where it started or less than a step beyond the data.
   */
  lemma PositionDoesNotWrap(buffer: seq<Stereo>, start: nat, step: nat, room: nat, k: nat)
    requires k <= Count(buffer, start, step, room) && start < U64 && |buffer| * SCALE + step <= U64
    ensures Position(start, step, k) < U64
  {
    if k > 0 {
      CountInRange(buffer, start, step, room, k - 1);
      PositionNext(start, step, k - 1);
      assert Position(start, step, k - 1) < |buffer| * SCALE;
    } else {
      assert Position(start, step, 0) == start;
    }
  }

  // ---------------------------------------------------------------- the loop

  lemma {:induction false} CountIs(buffer: seq<Stereo>, start: nat, step: nat, room: nat, n: nat)
    requires n <= room && forall k :: 0 <= k < n ==> InRange(buffer, Position(start, step, k))
    requires n < room ==> !InRange(buffer, Position(start, step, n))
    ensures Count(buffer, start, step, room) == n
    decreases room
  {
    if n > 0 {
      assert InRange(buffer, Position(start, step, 0));
      var next := start + step;
      forall k | 0 <= k < n - 1
        ensures InRange(buffer, Position(next, step, k))
      {
        PositionNext(start, step, k);
        assert InRange(buffer, Position(start, step, k + 1));
      }
      PositionNext(start, step, n - 1);
      CountIs(buffer, start + step, step, room - 1, n - 1);
    } else {
      assert Position(start, step, 0) == start;
    }
  }

  /** With no input nothing happens, which is also what the general case would do. */
  lemma EmptyInput(state: State, step: nat, room: nat, fn: Kernel)
    ensures Resample(state, [], step, room, fn) == Result(state, [], [])
  {
    assert Position(state.fposition, step, 0) == state.fposition;
  }

  /** The outcome of a loop that made `n` outputs and stopped at sample `inputi`. */
  lemma ResultIs(state: State, input: seq<Stereo>, step: nat, room: nat, fn: Kernel, n: nat, inputi: nat)
    requires var buffer := Buffer(state, input);
             && n <= room && (forall k :: 0 <= k < n ==> InRange(buffer, Position(state.fposition, step, k)))
             && (n < room ==> !InRange(buffer, Position(state.fposition, step, n)) && inputi == |buffer| - 2)
             && (n == room ==> inputi == if n == 0 then 0 else Position(state.fposition, step, n - 1) / SCALE)
    ensures inputi + 2 <= |Buffer(state, input)| && inputi * SCALE <= Position(state.fposition, step, n)
    ensures Resample(state, input, step, room, fn) ==
            Result(State(Buffer(state, input)[inputi + 1], Buffer(state, input)[inputi], Position(state.fposition, step, n) - inputi * SCALE),
                   Buffer(state, input)[inputi + 2..], Outputs(Buffer(state, input), state.fposition, step, n, fn))
  {
    var buffer := Buffer(state, input);
    CountIs(buffer, state.fposition, step, room, n);
    PositionCoversConsumed(buffer, state.fposition, step, room);
  }

  /** From index `first` on, `made` has been written over `was`, and nothing else. */
  predicate Filled(now: seq<Stereo>, was: seq<Stereo>, first: nat, made: seq<Stereo>) {
    && first + |made| <= |now| == |was|
    && now == was[..first] + made + was[first + |made|..]
  }

  lemma FilledNext(now: seq<Stereo>, was: seq<Stereo>, first: nat, made: seq<Stereo>, y: Stereo)
    requires Filled(now, was, first, made) && first + |made| < |now|
    ensures Filled(now[first + |made| := y], was, first, made + [y])
  {
  }

  lemma FilledParts(now: seq<Stereo>, was: seq<Stereo>, first: nat, made: seq<Stereo>)
    requires Filled(now, was, first, made)
    ensures now[..first + |made|] == was[..first] + made && now[first + |made|..] == was[first + |made|..]
  {
  }

  /** The resampler state, which each call updates in place. */
  class Interpolator {
    var xn1: Stereo
    var xn2: Stereo
    var fposition: nat

    function View(): State
      reads this
    {
      State(xn1, xn2, fposition)
    }

    constructor ()
      ensures View() == State(Stereo(0, 0), Stereo(0, 0), 0)
    {
      xn1, xn2, fposition := Stereo(0, 0), Stereo(0, 0), 0;
    }

    /** Fills `output` from index `outputi` on; `rest` is what remains of the input queue. */
    method StepOverSamples(input: seq<Stereo>, rate: real, output: array<Stereo>, outputi: nat, fn: Kernel)
      returns (rest: seq<Stereo>, outputi': nat)
      requires outputi <= output.Length && rate > 0.0
      modifies this, output
      ensures var r := Resample(old(View()), input, StepSize(rate), output.Length - outputi, fn);
              && View() == r.state && rest == r.input
              && outputi' == outputi + |r.output|
              && output[..outputi'] == old(output[..outputi]) + r.output
              && output[outputi'..] == old(output[..])[outputi'..]
    {
      ghost var room := output.Length - outputi;
      var step := StepSize(rate);
      if input == [] {
        EmptyInput(View(), step, room, fn);
        return [], outputi;
      }
      var buffer := [xn2, xn1] + input;
      var inputi, position;
      ghost var n;
      inputi, position, outputi', n := FillOutput(buffer, fposition, step, output, outputi, fn);
      ResultIs(View(), input, step, room, fn, n, inputi);
      FilledParts(output[..], old(output[..]), outputi, Outputs(buffer, fposition, step, n, fn));
      rest := GiveUp(buffer, inputi, position);
    }

    /** The loop; it stops at sample `inputi` after `n` outputs. */
    static method FillOutput(buffer: seq<Stereo>, start: nat, step: nat, output: array<Stereo>, outputi: nat, fn: Kernel)
      returns (inputi: nat, position: nat, outputi': nat, ghost n: nat)
      requires outputi <= output.Length && |buffer| >= 2
      modifies output
      ensures n <= output.Length - outputi && outputi' == outputi + n && position == Position(start, step, n)
      ensures forall k :: 0 <= k < n ==> InRange(buffer, Position(start, step, k))
      ensures outputi' < output.Length ==> !InRange(buffer, position) && inputi == |buffer| - 2
      ensures outputi' == output.Length ==> inputi == if n == 0 then 0 else Position(start, step, n - 1) / SCALE
      ensures Filled(output[..], old(output[..]), outputi, Outputs(buffer, start, step, n, fn))
    {
      position, inputi, outputi', n := start, 0, outputi, 0;
      while outputi' < output.Length
        invariant n <= output.Length - outputi && outputi' == outputi + n
        invariant position == Position(start, step, n)
        invariant forall k :: 0 <= k < n ==> InRange(buffer, Position(start, step, k))
        invariant Filled(output[..], old(output[..]), outputi, Outputs(buffer, start, step, n, fn))
        invariant inputi == if n == 0 then 0 else Position(start, step, n - 1) / SCALE
      {
        inputi := position / SCALE;
        if inputi + 2 >= |buffer| {
          inputi := |buffer| - 2;
          break;
        }
        OutputsNext(buffer, start, step, n, fn);
        FilledNext(output[..], old(output[..]), outputi, Outputs(buffer, start, step, n, fn), Tap(buffer, position, fn));
        PositionNext(start, step, n);
        PutOut(buffer, position, output, outputi', fn);
        outputi' := outputi' + 1;
        position := position + step;
        n := n + 1;
      }
    }

    /** One output. */
    static method PutOut(buffer: seq<Stereo>, position: nat, output: array<Stereo>, at: nat, fn: Kernel)
      requires InRange(buffer, position) && at < output.Length
      modifies output
      ensures output[..] == old(output[..])[at := Tap(buffer, position, fn)]
    {
      var inputi, fraction := position / SCALE, position % SCALE;
      output[at] := fn(fraction, buffer[inputi], buffer[inputi + 1], buffer[inputi + 2]);
    }

    /** Keeps two samples, and makes the position relative to them. */
    method GiveUp(buffer: seq<Stereo>, inputi: nat, position: nat) returns (rest: seq<Stereo>)
      requires inputi + 2 <= |buffer| && inputi * SCALE <= position
      modifies this
      ensures View() == State(buffer[inputi + 1], buffer[inputi], position - inputi * SCALE)
      ensures rest == buffer[inputi + 2..]
    {
      xn2 := buffer[inputi];
      xn1 := buffer[inputi + 1];
      fposition := position - inputi * SCALE;
      rest := buffer[inputi + 2..];
    }
  }

  // ---------------------------------------------------------------- streaming

  /** One call: samples queued before it and the room it finds in the frame. */
  datatype Call = Call(chunk: seq<Stereo>, room: nat)

  /** Everything put out by a series of calls, with the state and queue they leave. */
  function Play(state: State, input: seq<Stereo>, step: nat, calls: seq<Call>, fn: Kernel): Result {
    if calls == [] then Result(state, input, [])
    else
      var last := calls[|calls| - 1];
      var before := Play(state, input, step, calls[..|calls| - 1], fn);
      var r := Resample(before.state, before.input + last.chunk, step, last.room, fn);
      Result(r.state, r.input, before.output + r.output)
  }

  function Chunks(calls: seq<Call>): seq<Stereo> {
    if calls == [] then [] else Chunks(calls[..|calls| - 1]) + calls[|calls| - 1].chunk
  }

  /** What the last of `calls` finds: the state left by the earlier ones and the queue with its chunk. */
  function Queued(state: State, input: seq<Stereo>, step: nat, calls: seq<Call>, fn: Kernel): Result
    requires calls != []
  {
    var before := Play(state, input, step, calls[..|calls| - 1], fn);
    before.(input := before.input + calls[|calls| - 1].chunk)
  }

  /** How many outputs the last call makes. */
  function LastCount(state: State, input: seq<Stereo>, step: nat, calls: seq<Call>, fn: Kernel): nat
    requires calls != []
  {
    var q := Queued(state, input, step, calls, fn);
    Count(Buffer(q.state, q.input), q.state.fposition, step, calls[|calls| - 1].room)
  }

  /** The last call did not fill its frame. */
  predicate Drained(state: State, input: seq<Stereo>, step: nat, calls: seq<Call>, fn: Kernel) {
    calls != [] && LastCount(state, input, step, calls, fn) < calls[|calls| - 1].room
  }

  /**
   The outputs so far are the taps of `stream` at the first positions, and the kept samples and the queue are
   the stream from sample `base` on, with the position relative to it.
   */
  ghost predicate Tracks(stream: seq<Stereo>, start: nat, step: nat, fn: Kernel, r: Result, base: nat) {
    && base + 2 <= |stream| && Buffer(r.state, r.input) == stream[base..]
    && base * SCALE + r.state.fposition == Position(start, step, |r.output|)
    && forall k :: 0 <= k < |r.output| ==>
         InRange(stream, Position(start, step, k)) && r.output[k] == Tap(stream, Position(start, step, k), fn)
  }

  lemma TapShift(stream: seq<Stereo>, base: nat, position: nat, fn: Kernel)
    requires base <= |stream|
    ensures InRange(stream[base..], position) <==> InRange(stream, base * SCALE + position)
    ensures InRange(stream[base..], position) ==> Tap(stream[base..], position, fn) == Tap(stream, base * SCALE + position, fn)
  {
    var i := position / SCALE;
    assert (base * SCALE + position) / SCALE == base + i && (base * SCALE + position) % SCALE == position % SCALE;
  }

  lemma PositionSum(start: nat, step: nat, m: nat, k: nat, base: nat, fposition: nat)
    requires base * SCALE + fposition == Position(start, step, m)
    ensures base * SCALE + Position(fposition, step, k) == Position(start, step, m + k)
  {
    assert (m + k) * step == m * step + k * step;
  }

  lemma TracksMoreInput(stream: seq<Stereo>, chunk: seq<Stereo>, start: nat, step: nat, fn: Kernel, r: Result, base: nat)
    requires Tracks(stream, start, step, fn, r, base)
    ensures Tracks(stream + chunk, start, step, fn, r.(input := r.input + chunk), base)
  {
    assert Buffer(r.state, r.input + chunk) == Buffer(r.state, r.input) + chunk;
    assert (stream + chunk)[base..] == stream[base..] + chunk;
  }

  /** A tap of the buffer is the tap of the stream, counted from the stream's first output. */
  lemma OutputTracks(stream: seq<Stereo>, start: nat, step: nat, fn: Kernel, r: Result, base: nat, room: nat, k: nat)
    requires Tracks(stream, start, step, fn, r, base)
    requires k < Count(Buffer(r.state, r.input), r.state.fposition, step, room)
    ensures var next := Resample(r.state, r.input, step, room, fn);
            && k < |next.output| && InRange(stream, Position(start, step, |r.output| + k))
            && next.output[k] == Tap(stream, Position(start, step, |r.output| + k), fn)
  {
    CountInRange(Buffer(r.state, r.input), r.state.fposition, step, room, k);
    TapShift(stream, base, Position(r.state.fposition, step, k), fn);
    PositionSum(start, step, |r.output|, k, base, r.state.fposition);
  }

  lemma RemainderTracks(stream: seq<Stereo>, start: nat, step: nat, fn: Kernel, r: Result, base: nat, room: nat)
    requires Tracks(stream, start, step, fn, r, base)
    ensures var next := Resample(r.state, r.input, step, room, fn);
            var c := Consumed(Buffer(r.state, r.input), r.state.fposition, step, room);
            && base + c + 2 <= |stream| && Buffer(next.state, next.input) == stream[base + c..]
            && (base + c) * SCALE + next.state.fposition == Position(start, step, |r.output| + |next.output|)
  {
    var buffer := Buffer(r.state, r.input);
    var n := Count(buffer, r.state.fposition, step, room);
    var c := Consumed(buffer, r.state.fposition, step, room);
    var next := Resample(r.state, r.input, step, room, fn);
    PositionSum(start, step, |r.output|, n, base, r.state.fposition);
    PositionCoversConsumed(buffer, r.state.fposition, step, room);
    assert Buffer(next.state, next.input) == buffer[c..];
    assert stream[base..][c..] == stream[base + c..];
  }

  lemma TracksResample(stream: seq<Stereo>, start: nat, step: nat, fn: Kernel, r: Result, base: nat, room: nat)
    requires Tracks(stream, start, step, fn, r, base)
    ensures var next := Resample(r.state, r.input, step, room, fn);
            var c := Consumed(Buffer(r.state, r.input), r.state.fposition, step, room);
            Tracks(stream, start, step, fn, next.(output := r.output + next.output), base + c)
  {
    RemainderTracks(stream, start, step, fn, r, base, room);
    AllOutputsTrack(stream, start, step, fn, r, base, room);
  }

  lemma AllOutputsTrack(stream: seq<Stereo>, start: nat, step: nat, fn: Kernel, r: Result, base: nat, room: nat)
    requires Tracks(stream, start, step, fn, r, base)
    ensures var all := r.output + Resample(r.state, r.input, step, room, fn).output;
            forall k :: 0 <= k < |all| ==>
              InRange(stream, Position(start, step, k)) && all[k] == Tap(stream, Position(start, step, k), fn)
  {
    var next := Resample(r.state, r.input, step, room, fn);
    forall k | 0 <= k < |r.output + next.output|
      ensures InRange(stream, Position(start, step, k))
      ensures (r.output + next.output)[k] == Tap(stream, Position(start, step, k), fn)
    {
      if k >= |r.output| {
        OutputTracks(stream, start, step, fn, r, base, room, k - |r.output|);
      }
    }
  }

  lemma {:induction false} QueuedTracks(state: State, input: seq<Stereo>, step: nat, calls: seq<Call>, fn: Kernel) returns (base: nat)
    requires calls != []
    ensures Tracks(Buffer(state, input) + Chunks(calls), state.fposition, step, fn, Queued(state, input, step, calls, fn), base)
    decreases |calls|, 0
  {
    var last, earlier := calls[|calls| - 1], calls[..|calls| - 1];
    base := PlayTracks(state, input, step, earlier, fn);
    var stream := Buffer(state, input) + Chunks(earlier);
    TracksMoreInput(stream, last.chunk, state.fposition, step, fn, Play(state, input, step, earlier, fn), base);
    assert stream + last.chunk == Buffer(state, input) + Chunks(calls);
  }

  lemma {:induction false} PlayTracks(state: State, input: seq<Stereo>, step: nat, calls: seq<Call>, fn: Kernel) returns (base: nat)
    ensures Tracks(Buffer(state, input) + Chunks(calls), state.fposition, step, fn, Play(state, input, step, calls, fn), base)
    decreases |calls|, 1
  {
    if calls == [] {
      assert Buffer(state, input) + [] == Buffer(state, input);
      assert Position(state.fposition, step, 0) == state.fposition;
      base := 0;
    } else {
      var queued, room := Queued(state, input, step, calls, fn), calls[|calls| - 1].room;
      var b := QueuedTracks(state, input, step, calls, fn);
      TracksResample(Buffer(state, input) + Chunks(calls), state.fposition, step, fn, queued, b, room);
      base := b + Consumed(Buffer(queued.state, queued.input), queued.state.fposition, step, room);
    }
  }

  /**
   However the input is cut into chunks and the output into frames, output `k` is taken from the whole stream,
   the two kept samples in front, at `fposition + k * step`, and once a frame stays unfilled nothing of the stream is left.
   */
  lemma StreamingIsOnePass(state: State, input: seq<Stereo>, step: nat, calls: seq<Call>, fn: Kernel)
    ensures var stream := [state.xn2, state.xn1] + input + Chunks(calls);
            var out := Play(state, input, step, calls, fn).output;
            && (forall k: nat :: k < |out| ==> TakenAt(stream, Position(state.fposition, step, k), fn, out[k]))
            && (Drained(state, input, step, calls, fn) ==> Position(state.fposition, step, |out|) / 0x100_0000 + 2 >= |stream|)
  {
    TapsOfStream(state, input, step, calls, fn);
    var stream, out := Buffer(state, input) + Chunks(calls), Play(state, input, step, calls, fn).output;
    forall k: nat | k < |out|
      ensures TakenAt(stream, Position(state.fposition, step, k), fn, out[k])
    {
    }
  }

  /** The upper bits of a position, above 24, choose a sample; the lower ones tell how far it is to the next. */
  predicate TakenAt(stream: seq<Stereo>, position: nat, fn: Kernel, output: Stereo) {
    var i := position / 0x100_0000;
    i + 2 < |stream| && output == fn(position % 0x100_0000, stream[i], stream[i + 1], stream[i + 2])
  }

  /**
   One call, in terms of its buffer: it fills the room unless the next position is beyond the data. It keeps the two
   samples at the last output, or at the end of the data, and the position relative to them.
   */
  lemma ResampleOutcome(state: State, input: seq<Stereo>, step: nat, room: nat, fn: Kernel)
    ensures var buffer, r := [state.xn2, state.xn1] + input, Resample(state, input, step, room, fn);
            var n := |r.output|;
            var c := if n < room then |input| else if n == 0 then 0 else Position(state.fposition, step, n - 1) / 0x100_0000;
            && n <= room && (n < room ==> Position(state.fposition, step, n) / 0x100_0000 >= |input|)
            && (forall k: nat :: k < n ==> TakenAt(buffer, Position(state.fposition, step, k), fn, r.output[k]))
            && c <= |input| && r.state.xn2 == buffer[c] && r.state.xn1 == buffer[c + 1] && r.input == buffer[c + 2..]
            && r.state.fposition + c * 0x100_0000 == Position(state.fposition, step, n)
  {
    var buffer, start := Buffer(state, input), state.fposition;
    var n := Count(buffer, start, step, room);
    PositionCoversConsumed(buffer, start, step, room);
    if n < room {
      CountStops(buffer, start, step, room);
    }
    if n > 0 {
      CountInRange(buffer, start, step, room, n - 1);
    }
    OutcomeTaken(state, input, step, room, fn);
  }

  lemma OutcomeTaken(state: State, input: seq<Stereo>, step: nat, room: nat, fn: Kernel)
    ensures var r := Resample(state, input, step, room, fn);
            forall k: nat :: k < |r.output| ==> TakenAt(Buffer(state, input), Position(state.fposition, step, k), fn, r.output[k])
  {
    var r := Resample(state, input, step, room, fn);
    forall k: nat | k < |r.output|
      ensures TakenAt(Buffer(state, input), Position(state.fposition, step, k), fn, r.output[k])
    {
      CountInRange(Buffer(state, input), state.fposition, step, room, k);
    }
  }

  lemma TapsOfStream(state: State, input: seq<Stereo>, step: nat, calls: seq<Call>, fn: Kernel)
    ensures var stream, out := Buffer(state, input) + Chunks(calls), Play(state, input, step, calls, fn).output;
            && (forall k :: 0 <= k < |out| ==>
                  InRange(stream, Position(state.fposition, step, k)) && out[k] == Tap(stream, Position(state.fposition, step, k), fn))
            && (Drained(state, input, step, calls, fn) ==> !InRange(stream, Position(state.fposition, step, |out|)))
  {
    var base := PlayTracks(state, input, step, calls, fn);
    if Drained(state, input, step, calls, fn) {
      DrainedIsComplete(state, input, step, calls, fn);
    }
  }

  lemma DrainedIsComplete(state: State, input: seq<Stereo>, step: nat, calls: seq<Call>, fn: Kernel)
    requires Drained(state, input, step, calls, fn)
    ensures !InRange(Buffer(state, input) + Chunks(calls), Position(state.fposition, step, |Play(state, input, step, calls, fn).output|))
  {
    var b := QueuedTracks(state, input, step, calls, fn);
    PlayCount(state, input, step, calls, fn);
    UnfilledStops(Buffer(state, input) + Chunks(calls), state.fposition, step, fn, Queued(state, input, step, calls, fn), b,
                  calls[|calls| - 1].room, |Play(state, input, step, calls, fn).output|);
  }

  lemma PlayCount(state: State, input: seq<Stereo>, step: nat, calls: seq<Call>, fn: Kernel)
    requires calls != []
    ensures |Play(state, input, step, calls, fn).output| ==
            |Queued(state, input, step, calls, fn).output| + LastCount(state, input, step, calls, fn)
  {
  }

  lemma UnfilledStops(stream: seq<Stereo>, start: nat, step: nat, fn: Kernel, r: Result, base: nat, room: nat, total: nat)
    requires Tracks(stream, start, step, fn, r, base)
    requires Count(Buffer(r.state, r.input), r.state.fposition, step, room) < room
    requires total == |r.output| + Count(Buffer(r.state, r.input), r.state.fposition, step, room)
    ensures !InRange(stream, Position(start, step, total))
  {
    var n := Count(Buffer(r.state, r.input), r.state.fposition, step, room);
    CountStops(Buffer(r.state, r.input), r.state.fposition, step, room);
    TapShift(stream, base, Position(r.state.fposition, step, n), fn);
    PositionSum(start, step, |r.output|, n, base, r.state.fposition);
  }

  /** Two ways of cutting up the same input agree as far as both go, and entirely once both are drained. */
  lemma ChunkingDoesNotMatter(state: State, input: seq<Stereo>, step: nat, a: seq<Call>, b: seq<Call>, fn: Kernel)
    requires Chunks(a) == Chunks(b)
    ensures var x, y := Play(state, input, step, a, fn).output, Play(state, input, step, b, fn).output;
            && (x <= y || y <= x)
            && (Drained(state, input, step, a, fn) && Drained(state, input, step, b, fn) ==> x == y)
  {
    TapsOfStream(state, input, step, a, fn);
    TapsOfStream(state, input, step, b, fn);
  }

  // ---------------------------------------------------------------- the kernels

  /** The cast to a 16-bit signed integer. */
  function ToS16(x: int): s16 {
    (x + 0x8000) % 0x1_0000 - 0x8000
  }

  /** One channel of `Linear` in the arithmetic of the source: unsigned 64-bit, then a cast. */
  function LinearChannel(fraction: nat, x0: s16, x1: s16): s16 {
    var delta := Clamp16(x1 - x0);
    var product := (fraction * (delta % U64)) % U64;
    ToS16((x0 % U64 + product / SCALE) % U64)
  }

  function LinearKernel(fraction: nat, x0: Stereo, x1: Stereo, x2: Stereo): Stereo {
    Stereo(LinearChannel(fraction, x0.left, x1.left), LinearChannel(fraction, x0.right, x1.right))
  }

  function NoneKernel(fraction: nat, x0: Stereo, x1: Stereo, x2: Stereo): Stereo {
    x0
  }

  lemma ProductMod(fraction: nat, delta: int)
    requires -0x8000 <= delta < 0x8000
    ensures (fraction * (delta % U64)) % U64 == (fraction * delta) % U64
  {
    if delta < 0 {
      assert delta % U64 == delta + U64;
      assert fraction * (delta + U64) == fraction * delta + fraction * U64;
      AddMultiple(fraction * delta, fraction);
    }
  }

  lemma {:induction false} AddMultiple(x: int, k: nat)
    ensures (x + k * U64) % U64 == x % U64
  {
    if k > 0 {
      AddMultiple(x, k - 1);
      assert x + k * U64 == (x + (k - 1) * U64) + U64;
    }
  }

  lemma ProductBound(fraction: nat, delta: int)
    requires fraction < SCALE
    ensures delta >= 0 ==> 0 <= fraction * delta <= SCALE * delta
    ensures delta <= 0 ==> SCALE * delta <= fraction * delta <= 0
  {
  }

  /** The unsigned detour is exact: the result is the floored interpolation, between the two samples. */
  lemma LinearIsInterpolation(fraction: nat, x0: s16, x1: s16)
    requires fraction < SCALE
    ensures LinearChannel(fraction, x0, x1) == x0 + fraction * Clamp16(x1 - x0) / SCALE
    ensures x0 <= x1 ==> x0 <= LinearChannel(fraction, x0, x1) <= x1
    ensures x1 <= x0 ==> x1 <= LinearChannel(fraction, x0, x1) <= x0
  {
    var delta := Clamp16(x1 - x0);
    ProductMod(fraction, delta);
    ProductBound(fraction, delta);
    UnsignedDetour(x0, fraction * delta);
  }

  lemma UnsignedDetour(x0: s16, m: int)
    requires SCALE * -0x8000 <= m <= SCALE * 0x7FFF
    requires -0x8000 <= x0 + m / SCALE < 0x8000
    ensures ToS16((x0 % U64 + (m % U64) / SCALE) % U64) == x0 + m / SCALE
  {
    var q := m / SCALE;
    HighWord(m);
    if m < 0 {
      WrapSum(x0, q + 0x100_0000_0000, q);
    } else {
      WrapSum(x0, q, q);
    }
  }

  /** A negative number keeps its quotient in the low 16 bits of the unsigned one. */
  lemma HighWord(m: int)
    requires SCALE * -0x8000 <= m <= SCALE * 0x7FFF
    ensures m % U64 / SCALE == if m < 0 then m / SCALE + 0x100_0000_0000 else m / SCALE
    ensures -0x8000 <= m / SCALE <= 0x7FFF
  {
    var q, r := m / SCALE, m % SCALE;
    if m < 0 {
      assert m + U64 == (q + 0x100_0000_0000) * SCALE + r;
    }
  }

  lemma WrapSum(x0: s16, high: nat, q: int)
    requires high < 0x8000 || 0x100_0000_0000 - 0x8000 <= high <= 0x100_0000_0000 + 0x7FFF
    requires (high - q) % 0x1_0000 == 0 && -0x8000 <= x0 + q < 0x8000
    ensures ToS16((x0 % U64 + high) % U64) == x0 + q
  {
    var k := (high - q) / 0x1_0000;
    var sum := x0 % U64 + high;
    var wraps := (if x0 < 0 then 1 else 0) - sum / U64;
    assert sum % U64 == x0 + high + wraps * U64;
    ToS16Of(x0 + q, k + wraps * 0x1_0000_0000_0000);
  }

  lemma ToS16Of(x: s16, k: int)
    ensures ToS16(x + k * 0x1_0000) == x
  {
    assert (x + 0x8000 + k * 0x1_0000) % 0x1_0000 == x + 0x8000;
  }

  /** `None` puts out the samples of its stream unchanged, the one at or before each position. */
  lemma NoneHoldsSamples(state: State, input: seq<Stereo>, step: nat, calls: seq<Call>, k: nat)
    requires k < |Play(state, input, step, calls, NoneKernel).output|
    ensures var stream, i := [state.xn2, state.xn1] + input + Chunks(calls), Position(state.fposition, step, k) / 0x100_0000;
            i + 2 < |stream| && Play(state, input, step, calls, NoneKernel).output[k] == stream[i]
  {
    StreamingIsOnePass(state, input, step, calls, NoneKernel);
    assert TakenAt(Buffer(state, input) + Chunks(calls), Position(state.fposition, step, k), NoneKernel,
                   Play(state, input, step, calls, NoneKernel).output[k]);
  }

  /**
   Every output of a linear resampler, channel by channel, is on the line from a sample of its stream to the next,
   the rise limited to 16 bits and the result rounded down, and so lies between the two.
   */
  lemma LinearStaysBetween(state: State, input: seq<Stereo>, step: nat, calls: seq<Call>, k: nat)
    requires k < |Play(state, input, step, calls, LinearKernel).output|
    ensures var stream, y := [state.xn2, state.xn1] + input + Chunks(calls), Play(state, input, step, calls, LinearKernel).output[k];
            var p := Position(state.fposition, step, k);
            var i, fraction := p / 0x100_0000, p % 0x100_0000;
            && i + 2 < |stream|
            && OnLine(y.left, stream[i].left, stream[i + 1].left, fraction) && OnLine(y.right, stream[i].right, stream[i + 1].right, fraction)
            && Between(y.left, stream[i].left, stream[i + 1].left) && Between(y.right, stream[i].right, stream[i + 1].right)
  {
    StreamingIsOnePass(state, input, step, calls, LinearKernel);
    LinearTaken([state.xn2, state.xn1] + input + Chunks(calls), Position(state.fposition, step, k),
                Play(state, input, step, calls, LinearKernel).output[k]);
  }

  lemma LinearTaken(stream: seq<Stereo>, p: nat, y: Stereo)
    requires TakenAt(stream, p, LinearKernel, y)
    ensures var i, fraction := p / 0x100_0000, p % 0x100_0000;
            && i + 2 < |stream|
            && OnLine(y.left, stream[i].left, stream[i + 1].left, fraction) && OnLine(y.right, stream[i].right, stream[i + 1].right, fraction)
            && Between(y.left, stream[i].left, stream[i + 1].left) && Between(y.right, stream[i].right, stream[i + 1].right)
  {
    var i := p / SCALE;
    LinearIsInterpolation(p % SCALE, stream[i].left, stream[i + 1].left);
    LinearIsInterpolation(p % SCALE, stream[i].right, stream[i + 1].right);
  }

  predicate OnLine(y: int, a: int, b: int, fraction: nat) {
    var rise := if b - a > 0x7FFF then 0x7FFF else if b - a < -0x8000 then -0x8000 else b - a;
    y == a + fraction * rise / 0x100_0000
  }

  predicate Between(y: int, a: int, b: int) {
    a <= y <= b || b <= y <= a
  }
}
