/**
 The buffering in front of the geometry shader: vertex shader outputs are gathered, in the input registers or
 the uniform registers, until there are enough for one invocation.
 */
module GeometryPipeline {
  import opened Common

  const ATTRIBUTES: nat := 16
  const UNIFORMS: nat := 96
  const U32: nat := 0x1_0000_0000

  /** The pipeline mode and the registers it uses; `output` is the number of attributes of a vertex shader output. */
  datatype Mode =
    | Direct
    | Point(output: nat, inputs: nat)
    | FixedPrimitive(output: nat, vertices: nat, start: nat)
    | VariablePrimitive(output: nat, main: nat)

  /** What leaves the pipeline: a vertex for the assembler, or an invocation of the geometry shader. */
  datatype Call<V> = ToAssembler(vertex: seq<V>) | Invoke(attributes: seq<V>) | InvokeCounted(vertexNum: nat, attributes: seq<V>)

  /** The widths of the register fields, and the assertion of the point mode. */
  predicate BackendOk(b: Mode) {
    match b
    case Direct => true
    case Point(output, inputs) => 1 <= output <= 16 && 1 <= inputs <= 16 && inputs % output == 0
    case FixedPrimitive(output, vertices, start) => 1 <= output <= 16 && 1 <= vertices <= 16 && start <= 15
    case VariablePrimitive(output, main) => 1 <= output <= 16 && main < U32
  }

  type Backend = b: Mode | BackendOk(b) witness Direct

  /** `buffered` are the attributes gathered since the last invocation. */
  datatype Pipe<V> = Pipe(backend: Backend, buffered: seq<V>, needIndex: bool, mainLeft: nat, totalLeft: nat, vertexNum: nat,
                          sent: seq<Call<V>>)

  // ---------------------------------------------------------------- one step

  function Fresh<V>(b: Backend, sent: seq<Call<V>>): Pipe<V> {
    Pipe(b, [], b.VariablePrimitive?, 0, 0, 0, sent)
  }

  /** The attributes that fill the buffer of the point and fixed primitive modes. */
  function Capacity(b: Backend): nat
    requires b.Point? || b.FixedPrimitive?
  {
    if b.Point? then b.inputs else b.vertices * b.output
  }

  predicate IsEmpty<V>(p: Pipe<V>) {
    match p.backend
    case Direct => true
    case VariablePrimitive(_, _) => p.needIndex
    case _ => p.buffered == []
  }

  function SubmitIndex<V>(p: Pipe<V>, val: nat): Pipe<V>
    requires p.backend.VariablePrimitive?
  {
    p.(buffered := [], needIndex := false, mainLeft := p.backend.main, totalLeft := val, vertexNum := val)
  }

  /** The attributes of a vertex that are received. */
  function Received<V>(p: Pipe<V>, input: seq<V>): seq<V>
    requires |input| == ATTRIBUTES && !p.backend.Direct?
  {
    if p.backend.VariablePrimitive? && p.mainLeft == 0 then [input[0]] else input[..p.backend.output]
  }

  function SubmitVertex<V>(p: Pipe<V>, input: seq<V>): Pipe<V>
    requires |input| == ATTRIBUTES
  {
    if p.backend.Direct? then p.(sent := p.sent + [ToAssembler(input)])
    else
      var gathered := p.buffered + Received(p, input);
      if p.backend.VariablePrimitive? then
        var left := (p.totalLeft - 1) % U32;
        var q := p.(buffered := gathered, mainLeft := if p.mainLeft > 0 then p.mainLeft - 1 else 0, totalLeft := left);
        if left == 0 then q.(needIndex := true, sent := p.sent + [InvokeCounted(p.vertexNum, gathered)]) else q
      else if |gathered| == Capacity(p.backend) then p.(buffered := [], sent := p.sent + [Invoke(gathered)])
      else p.(buffered := gathered)
  }

  function SubmitAll<V>(p: Pipe<V>, inputs: seq<seq<V>>): Pipe<V>
    requires AreVertices(inputs)
    ensures SubmitAll(p, inputs).backend == p.backend
  {
    if inputs == [] then p else SubmitVertex(SubmitAll(p, inputs[..|inputs| - 1]), inputs[|inputs| - 1])
  }

  predicate AreVertices<V>(inputs: seq<seq<V>>) {
    forall i :: 0 <= i < |inputs| ==> |inputs[i]| == ATTRIBUTES
  }

  // ---------------------------------------------------------------- what an invocation receives

  /** The first `width` attributes of each vertex, one after the other. */
  function Gather<V>(inputs: seq<seq<V>>, width: nat): (r: seq<V>)
    requires AreVertices(inputs) && width <= ATTRIBUTES
    ensures |r| == |inputs| * width
  {
    if inputs == [] then []
    else
      var init := inputs[..|inputs| - 1];
      assert |inputs| * width == |init| * width + width;
      Gather(init, width) + inputs[|inputs| - 1][..width]
  }

  /** The vertices of one invocation. */
  function PerInvocation(b: Backend): nat
    requires b.Point? || b.FixedPrimitive?
  {
    if b.Point? then b.inputs / b.output else b.vertices
  }

  lemma MultipleSize(d: int, w: nat)
    ensures d >= 1 ==> d * w >= w
    ensures d <= -1 ==> d * w + w <= 0
  {
    if d >= 1 {
      AtLeastOne(d, w);
    } else if d <= -1 {
      AtLeastOne(-d, w);
      assert d * w == -((-d) * w);
    }
  }

  lemma SameMultiple(n: nat, m: nat, w: nat)
    requires w > 0
    ensures n * w == m * w <==> n == m
  {
    MultipleSize(n - m, w);
    assert (n - m) * w == n * w - m * w;
  }

  lemma CapacityIs(b: Backend)
    requires (b.Point? || b.FixedPrimitive?)
    ensures Capacity(b) == PerInvocation(b) * b.output && PerInvocation(b) > 0
  {
    if b.Point? {
      var q := b.inputs / b.output;
      assert b.inputs == q * b.output + b.inputs % b.output;
      SameMultiple(q, 0, b.output);
    }
  }

  /** Fewer vertices than an invocation needs are buffered; the last one makes it happen and empties the buffer. */
  lemma {:induction false} OneInvocation<V>(p: Pipe<V>, inputs: seq<seq<V>>)
    requires (p.backend.Point? || p.backend.FixedPrimitive?) && p.buffered == []
    requires AreVertices(inputs) && |inputs| <= PerInvocation(p.backend)
    ensures SubmitAll(p, inputs) ==
            if |inputs| == PerInvocation(p.backend) then p.(sent := p.sent + [Invoke(Gather(inputs, p.backend.output))])
            else p.(buffered := Gather(inputs, p.backend.output))
    decreases |inputs|
  {
    CapacityIs(p.backend);
    if inputs != [] {
      OneInvocation(p, inputs[..|inputs| - 1]);
      SameMultiple(|inputs|, PerInvocation(p.backend), p.backend.output);
    }
  }

  lemma {:induction false} SubmitAllConcat<V>(p: Pipe<V>, a: seq<seq<V>>, b: seq<seq<V>>)
    requires AreVertices(a) && AreVertices(b)
    ensures AreVertices(a + b) && SubmitAll(p, a + b) == SubmitAll(SubmitAll(p, a), b)
    decreases |b|
  {
    if b == [] {
      assert a + b == a;
    } else {
      assert (a + b)[..|a + b| - 1] == a + b[..|b| - 1];
      SubmitAllConcat(p, a, b[..|b| - 1]);
    }
  }

  /** The invocations that a stream of vertices makes, `m` vertices for each. */
  function Invocations<V>(inputs: seq<seq<V>>, m: nat, width: nat): seq<Call<V>>
    requires AreVertices(inputs) && m > 0 && width <= ATTRIBUTES
  {
    if |inputs| < m then [] else [Invoke(Gather(inputs[..m], width))] + Invocations(inputs[m..], m, width)
  }

  /** The vertices left over. */
  function Remainder<V>(inputs: seq<seq<V>>, m: nat): (r: seq<seq<V>>)
    requires m > 0
    ensures AreVertices(inputs) ==> AreVertices(r)
  {
    if |inputs| < m then inputs else Remainder(inputs[m..], m)
  }

  lemma {:induction false} RemainderLength<V>(inputs: seq<seq<V>>, m: nat)
    requires m > 0
    ensures |Remainder(inputs, m)| == |inputs| % m
    decreases |inputs|
  {
    if |inputs| >= m {
      RemainderLength(inputs[m..], m);
      ModLess(|inputs|, m);
    }
  }

  lemma ModLess(n: nat, m: nat)
    requires 0 < m <= n
    ensures n % m == (n - m) % m
  {
    var q, r := (n - m) / m, (n - m) % m;
    assert n - m == q * m + r;
    var d := q + 1 - n / m;
    MultipleSize(d, m);
    assert d * m == (q + 1) * m - n / m * m;
  }

  function Streamed<V>(p: Pipe<V>, inputs: seq<seq<V>>, m: nat): Pipe<V>
    requires !p.backend.Direct? && AreVertices(inputs) && m > 0
  {
    p.(sent := p.sent + Invocations(inputs, m, p.backend.output), buffered := Gather(Remainder(inputs, m), p.backend.output))
  }

  lemma StreamedAfter<V>(p: Pipe<V>, first: seq<seq<V>>, rest: seq<seq<V>>)
    requires !p.backend.Direct? && AreVertices(first) && AreVertices(rest) && |first| > 0
    ensures AreVertices(first + rest)
    ensures Streamed(p.(sent := p.sent + [Invoke(Gather(first, p.backend.output))]), rest, |first|) == Streamed(p, first + rest, |first|)
  {
    var call := Invoke(Gather(first, p.backend.output));
    CutFirst(first, rest, p.backend.output);
    Associate(p.sent, [call], Invocations(rest, |first|, p.backend.output));
  }

  lemma CutFirst<V>(first: seq<seq<V>>, rest: seq<seq<V>>, width: nat)
    requires AreVertices(first) && AreVertices(rest) && |first| > 0 && width <= ATTRIBUTES
    ensures Invocations(first + rest, |first|, width) == [Invoke(Gather(first, width))] + Invocations(rest, |first|, width)
    ensures Remainder(first + rest, |first|) == Remainder(rest, |first|)
  {
    assert (first + rest)[..|first|] == first && (first + rest)[|first|..] == rest;
  }

  lemma Associate<T>(a: seq<T>, b: seq<T>, c: seq<T>)
    ensures (a + b) + c == a + (b + c)
  {
  }

  /** The whole stream: one invocation for every `PerInvocation` vertices, in order, the rest waiting. */
  lemma {:induction false} StreamOfVertices<V>(p: Pipe<V>, inputs: seq<seq<V>>, m: nat)
    requires (p.backend.Point? || p.backend.FixedPrimitive?) && p.buffered == [] && AreVertices(inputs)
    requires m == PerInvocation(p.backend) && m > 0
    ensures SubmitAll(p, inputs) == Streamed(p, inputs, m)
    decreases |inputs|
  {
    if |inputs| < m {
      OneInvocation(p, inputs);
      assert p.sent + [] == p.sent;
    } else {
      var first, rest := inputs[..m], inputs[m..];
      assert inputs == first + rest;
      OneInvocation(p, first);
      SubmitAllConcat(p, first, rest);
      StreamOfVertices(p.(sent := p.sent + [Invoke(Gather(first, p.backend.output))]), rest, m);
      StreamedAfter(p, first, rest);
    }
  }

  /** A draw can follow, without an assertion failing, exactly if no vertices are left over. */
  lemma EmptyAfterIff<V>(p: Pipe<V>, inputs: seq<seq<V>>)
    requires (p.backend.Point? || p.backend.FixedPrimitive?) && p.buffered == [] && AreVertices(inputs)
    ensures PerInvocation(p.backend) > 0
    ensures IsEmpty(SubmitAll(p, inputs)) <==> |inputs| % PerInvocation(p.backend) == 0
  {
    CapacityIs(p.backend);
    StreamOfVertices(p, inputs, PerInvocation(p.backend));
    RemainderLength(inputs, PerInvocation(p.backend));
    SameMultiple(|Remainder(inputs, PerInvocation(p.backend))|, 0, p.backend.output);
  }

  /** The vertices that a variable primitive takes. A count of zero wraps around. */
  function Awaited(val: nat): nat {
    if val == 0 then U32 else val
  }

  /** All attributes of the main vertices, the first attribute of the others. */
  function GatherPrimitive<V>(inputs: seq<seq<V>>, main: nat, width: nat): seq<V>
    requires AreVertices(inputs) && width <= ATTRIBUTES
  {
    var k := Min(|inputs|, main);
    Gather(inputs[..k], width) + Gather(inputs[k..], 1)
  }

  lemma GatherPrimitiveSnoc<V>(inputs: seq<seq<V>>, main: nat, width: nat)
    requires AreVertices(inputs) && width <= ATTRIBUTES && inputs != []
    ensures var init, last := inputs[..|inputs| - 1], inputs[|inputs| - 1];
            GatherPrimitive(inputs, main, width) ==
            GatherPrimitive(init, main, width) + if |inputs| <= main then last[..width] else [last[0]]
  {
    var n := |inputs| - 1;
    var init, last := inputs[..n], inputs[n];
    if |inputs| <= main {
      assert inputs[..n + 1] == inputs && init[..n] == init;
      assert inputs[n + 1..] == [] && init[n..] == [];
    } else {
      assert init[..main] == inputs[..main];
      assert inputs[main..][..n - main] == init[main..];
      assert inputs[main..][n - main] == last;
    }
  }

  /** The pipeline after an index `val` and then `inputs`. */
  function Filling<V>(p: Pipe<V>, val: nat, inputs: seq<seq<V>>): Pipe<V>
    requires p.backend.VariablePrimitive? && AreVertices(inputs)
  {
    var gathered := GatherPrimitive(inputs, p.backend.main, p.backend.output);
    var complete := |inputs| == Awaited(val);
    Pipe(p.backend, gathered, complete, p.backend.main - Min(|inputs|, p.backend.main), (val - |inputs|) % U32, val,
         p.sent + if complete then [InvokeCounted(val, gathered)] else [])
  }

  lemma WrapOne(val: nat, n: nat)
    requires val < U32 && 0 < n <= Awaited(val)
    ensures ((val - (n - 1)) % U32 - 1) % U32 == (val - n) % U32
    ensures (val - n) % U32 == 0 <==> n == Awaited(val)
  {
    if val == 0 {
      assert (0 - n) % U32 == if n == U32 then 0 else U32 - n;
    }
  }

  lemma FillingStep<V>(p: Pipe<V>, val: nat, inputs: seq<seq<V>>)
    requires p.backend.VariablePrimitive? && val < U32 && AreVertices(inputs)
    requires inputs != [] && |inputs| <= Awaited(val)
    ensures SubmitVertex(Filling(p, val, inputs[..|inputs| - 1]), inputs[|inputs| - 1]) == Filling(p, val, inputs)
  {
    GatherPrimitiveSnoc(inputs, p.backend.main, p.backend.output);
    WrapOne(val, |inputs|);
    assert p.sent + [] == p.sent;
  }

  /**
   After an index `val` the shader is invoked by the `val`-th vertex, with the count and the vertices gathered,
   and by none before it; but after an index of zero only by the 2^32-nd.
   */
  lemma {:induction false} VariableInvocation<V>(p: Pipe<V>, val: nat, inputs: seq<seq<V>>)
    requires p.backend.VariablePrimitive? && val < U32
    requires AreVertices(inputs) && |inputs| <= Awaited(val)
    ensures SubmitAll(SubmitIndex(p, val), inputs) == Filling(p, val, inputs)
    decreases |inputs|
  {
    if inputs != [] {
      VariableInvocation(p, val, inputs[..|inputs| - 1]);
      FillingStep(p, val, inputs);
    } else {
      assert p.sent + [] == p.sent;
    }
  }

  /** So the only call is the one by the last vertex, with the count that was announced, and then the next index is needed. */
  lemma VariableCalls<V>(p: Pipe<V>, val: nat, inputs: seq<seq<V>>)
    requires p.backend.VariablePrimitive? && val < U32
    requires AreVertices(inputs) && |inputs| <= if val == 0 then 0x1_0000_0000 else val
    ensures var q := SubmitAll(SubmitIndex(p, val), inputs);
            if |inputs| < (if val == 0 then 0x1_0000_0000 else val) then q.sent == p.sent && !q.needIndex
            else q.needIndex && q.sent == p.sent + [InvokeCounted(val, GatherPrimitive(inputs, p.backend.main, p.backend.output))]
  {
    VariableInvocation(p, val, inputs);
    assert p.sent + [] == p.sent;
  }

  // ---------------------------------------------------------------- attribute by attribute

  /** Attribute `k` of vertex `i`. */
  lemma {:induction false} GatherAt<V>(inputs: seq<seq<V>>, width: nat, i: nat, k: nat, at: nat)
    requires AreVertices(inputs) && width <= ATTRIBUTES && i < |inputs| && k < width && at == i * width + k
    ensures at < |Gather(inputs, width)| && Gather(inputs, width)[at] == inputs[i][k]
    decreases |inputs|
  {
    var n := |inputs| - 1;
    assert |inputs| * width == n * width + width;
    if i < n {
      SmallerMultiple(i, n, width);
      GatherAt(inputs[..n], width, i, k, at);
    }
  }

  /** Invocation `j` of a stream: attribute `k` of its vertex `i`. */
  ghost predicate InvokedWith<V>(calls: seq<Call<V>>, j: nat, i: nat, k: nat, width: nat, v: V) {
    j < |calls| && calls[j].Invoke? && i * width + k < |calls[j].attributes| && calls[j].attributes[i * width + k] == v
  }

  /** The vertices of invocation `j` are `m` in a row of the stream, each with its first attributes. */
  lemma {:induction false} InvocationAt<V>(inputs: seq<seq<V>>, m: nat, width: nat, j: nat, i: nat, k: nat, first: nat)
    requires AreVertices(inputs) && m > 0 && width <= ATTRIBUTES && i < m && k < width
    requires first == j * m && first + m <= |inputs|
    ensures InvokedWith(Invocations(inputs, m, width), j, i, k, width, inputs[first + i][k])
    decreases |inputs|
  {
    if j == 0 {
      GatherAt(inputs[..m], width, i, k, i * width + k);
    } else {
      OneMore(j - 1, j, m);
      InvocationAt(inputs[m..], m, width, j - 1, i, k, first - m);
      assert inputs[m..][first - m + i] == inputs[first + i];
    }
  }

  /** There are as many invocations as whole groups, each with the attributes of one group. */
  lemma {:induction false} InvocationSizes<V>(inputs: seq<seq<V>>, m: nat, width: nat)
    requires AreVertices(inputs) && m > 0 && width <= ATTRIBUTES
    ensures |Invocations(inputs, m, width)| == |inputs| / m
    ensures forall c :: c in Invocations(inputs, m, width) ==> c.Invoke? && |c.attributes| == m * width
    decreases |inputs|
  {
    if |inputs| >= m {
      InvocationSizes(inputs[m..], m, width);
      QuotientIs(|inputs|, m, (|inputs| - m) / m + 1, (|inputs| - m) % m);
    } else {
      QuotientIs(|inputs|, m, 0, |inputs|);
    }
  }

  /** A variable primitive: attribute `k` of main vertex `i`, and behind them the first attribute of each of the others. */
  lemma PrimitiveAt<V>(inputs: seq<seq<V>>, main: nat, width: nat, i: nat, k: nat)
    requires AreVertices(inputs) && width <= ATTRIBUTES && i < |inputs| && k < width
    ensures var gathered := GatherPrimitive(inputs, main, width);
            var at := if i < main then i * width + k else main * width + (i - main);
            at < |gathered| && (i < main || k == 0 ==> gathered[at] == inputs[i][k])
  {
    var n := Min(|inputs|, main);
    if i < main {
      GatherAt(inputs[..n], width, i, k, i * width + k);
    } else {
      assert inputs[main..][i - main] == inputs[i];
      GatherAt(inputs[main..], 1, i - main, 0, i - main);
      assert |Gather(inputs[..main], width)| == main * width;
    }
  }

  // ---------------------------------------------------------------- room in the registers

  /** The first register written, and the number there are: input registers, or uniforms. */
  function Base(b: Backend): nat {
    match b case Direct => 0 case Point(_, _) => 0 case FixedPrimitive(_, _, start) => start case VariablePrimitive(_, _) => 1
  }

  function RegisterCount(b: Backend): nat {
    if b.Point? then ATTRIBUTES else UNIFORMS
  }

  /** The next vertex will be written within the registers. */
  predicate Room<V>(p: Pipe<V>) {
    match p.backend
    case Direct => true
    case VariablePrimitive(output, _) => Base(p.backend) + |p.buffered| + (if p.mainLeft == 0 then 1 else output) <= UNIFORMS
    case _ => Base(p.backend) + |p.buffered| + p.backend.output <= RegisterCount(p.backend)
  }

  /** In the point mode, and in the fixed mode if one invocation's vertices fit, every vertex of every stream does. */
  lemma StreamHasRoom<V>(p: Pipe<V>, inputs: seq<seq<V>>)
    requires p.buffered == [] && AreVertices(inputs)
    requires p.backend.Point? || (p.backend.FixedPrimitive? && p.backend.start + p.backend.vertices * p.backend.output <= UNIFORMS)
    ensures Room(SubmitAll(p, inputs))
  {
    CapacityIs(p.backend);
    var m := PerInvocation(p.backend);
    StreamOfVertices(p, inputs, m);
    RemainderLength(inputs, m);
    SmallerMultiple(|Remainder(inputs, m)|, m, p.backend.output);
  }

  lemma SmallerMultiple(r: nat, m: nat, w: nat)
    requires r < m
    ensures r * w + w <= m * w
  {
    AtLeastOne(m - r, w);
    assert (m - r) * w == m * w - r * w;
  }

  lemma OneMore(n: nat, k: nat, w: nat)
    requires k == n + 1
    ensures k * w == n * w + w
  {
  }

  /** Otherwise the last vertex of an invocation is written beyond the uniforms: nothing checks the registers. */
  lemma FixedFitsIff<V>(p: Pipe<V>, inputs: seq<seq<V>>)
    requires p.backend.FixedPrimitive? && p.buffered == []
    requires AreVertices(inputs) && |inputs| == p.backend.vertices - 1
    ensures Room(SubmitAll(p, inputs)) <==> p.backend.start + p.backend.vertices * p.backend.output <= UNIFORMS
  {
    OneInvocation(p, inputs);
    OneMore(|inputs|, p.backend.vertices, p.backend.output);
  }

  lemma GatheredSize<V>(inputs: seq<seq<V>>, main: nat, width: nat)
    requires AreVertices(inputs) && width <= ATTRIBUTES
    ensures |GatherPrimitive(inputs, main, width)| == Min(|inputs|, main) * width + (|inputs| - Min(|inputs|, main))
  {
  }

  /**
   The registers that the first `k` vertices of a variable primitive fill: one for the count, all attributes of
   each main vertex, and one for each of the others.
   */
  function PrimitiveSize(b: Backend, k: nat): nat
    requires b.VariablePrimitive?
  {
    if k == 0 then 1 else PrimitiveSize(b, k - 1) + if k <= b.main then b.output else 1
  }

  lemma {:induction false} PrimitiveGrows(b: Backend, j: nat, k: nat)
    requires b.VariablePrimitive? && j <= k
    ensures PrimitiveSize(b, j) <= PrimitiveSize(b, k)
    decreases k
  {
    if j < k {
      PrimitiveGrows(b, j, k - 1);
    }
  }

  lemma {:induction false} PrimitiveSizeIs(b: Backend, k: nat)
    requires b.VariablePrimitive?
    ensures PrimitiveSize(b, k) == 1 + Min(k, b.main) * b.output + (k - Min(k, b.main))
  {
    if k > 0 {
      PrimitiveSizeIs(b, k - 1);
      if k <= b.main {
        OneMore(k - 1, k, b.output);
      }
    }
  }

  lemma GatheredIs<V>(b: Backend, inputs: seq<seq<V>>)
    requires b.VariablePrimitive? && AreVertices(inputs)
    ensures 1 + |GatherPrimitive(inputs, b.main, b.output)| == PrimitiveSize(b, |inputs|)
  {
    GatheredSize(inputs, b.main, b.output);
    PrimitiveSizeIs(b, |inputs|);
  }

  /** In the middle of a variable primitive there is room for the next vertex if and only if so many fit. */
  lemma FillingRoomIff<V>(p: Pipe<V>, val: nat, inputs: seq<seq<V>>, k: nat)
    requires p.backend.VariablePrimitive? && val < U32 && AreVertices(inputs) && k == |inputs| + 1
    ensures Room(Filling(p, val, inputs)) <==> PrimitiveSize(p.backend, k) <= UNIFORMS
  {
    GatheredIs(p.backend, inputs);
  }

  /** The same for a variable primitive: the last of its vertices fits if and only if their attributes do. */
  lemma VariableFitsIff<V>(p: Pipe<V>, val: nat, inputs: seq<seq<V>>)
    requires p.backend.VariablePrimitive? && 0 < val < U32
    requires AreVertices(inputs) && |inputs| == val - 1
    ensures Room(SubmitAll(SubmitIndex(p, val), inputs)) <==> PrimitiveSize(p.backend, val) <= UNIFORMS
  {
    VariableInvocation(p, val, inputs);
    FillingRoomIff(p, val, inputs, val);
  }

  function ZeroVertices(n: nat): (inputs: seq<seq<int>>)
    ensures |inputs| == n && AreVertices(inputs)
  {
    seq(n, _ => seq(ATTRIBUTES, _ => 0))
  }

  /** For example, six vertices of sixteen attributes from the second uniform on, in either mode: one too many. */
  lemma SixthVertexOverruns()
    ensures !Room(SubmitAll(Fresh(FixedPrimitive(16, 6, 1), []), ZeroVertices(5)))
    ensures !Room(SubmitAll(SubmitIndex(Fresh(VariablePrimitive(16, 6), []), 6), ZeroVertices(5)))
  {
    FixedFitsIff(Fresh(FixedPrimitive(16, 6, 1), []), ZeroVertices(5));
    PrimitiveSizeIs(VariablePrimitive(16, 6), 6);
    VariableFitsIff(Fresh(VariablePrimitive(16, 6), []), 6, ZeroVertices(5));
  }

  // ---------------------------------------------------------------- the class

  method CopyTo<V>(registers: array<V>, at: nat, data: seq<V>)
    requires at + |data| <= registers.Length
    modifies registers
    ensures registers[..at] == old(registers[..at]) && registers[at..at + |data|] == data
  {
    var k := 0;
    while k < |data|
      invariant 0 <= k <= |data|
      invariant registers[..at] == old(registers[..at]) && registers[at..at + k] == data[..k]
    {
      registers[at + k] := data[k];
      k := k + 1;
    }
  }

  class GeometryPipeline<V(0)> {
    var backend: Backend
    const attributeBuffer: array<V>
    const uniforms: array<V>
    /** `buffer_cur`, as an index into the registers in use. */
    var bufferCur: nat
    var needIndex: bool
    var mainVertexNum: nat
    var totalVertexNum: nat
    /** What the first uniform register holds in the variable mode. */
    var vertexNum: nat
    /** What has been handed on. */
    var sent: seq<Call<V>>

    function Registers(): array<V>
      reads this
    {
      if backend.Point? then attributeBuffer else uniforms
    }

    ghost predicate Valid()
      reads this
    {
      && attributeBuffer.Length == ATTRIBUTES && uniforms.Length == UNIFORMS && attributeBuffer != uniforms
      && Base(backend) <= bufferCur <= RegisterCount(backend)
    }

    ghost function View(): Pipe<V>
      requires Valid()
      reads this, attributeBuffer, uniforms
    {
      Pipe(backend, Registers()[Base(backend)..bufferCur], needIndex, mainVertexNum, totalVertexNum, vertexNum, sent)
    }

    constructor ()
      ensures Valid() && View() == Fresh(Direct, []) && fresh(attributeBuffer) && fresh(uniforms)
    {
      backend, bufferCur, needIndex, mainVertexNum, totalVertexNum, vertexNum, sent := Direct, 0, false, 0, 0, 0, [];
      attributeBuffer, uniforms := new V[ATTRIBUTES], new V[UNIFORMS];
    }

    /** The pipeline must not be reconfigured in the middle of a primitive. */
    method Reconfigure(b: Backend)
      requires Valid() && IsEmpty(View())
      modifies this
      ensures Valid() && View() == Fresh(b, old(sent))
    {
      backend := b;
      bufferCur := Base(b);
      needIndex, mainVertexNum, totalVertexNum, vertexNum := b.VariablePrimitive?, 0, 0, 0;
    }

    method NeedIndexInput() returns (r: bool)
      requires Valid()
      ensures r == (backend.VariablePrimitive? && View().needIndex)
    {
      r := backend.VariablePrimitive? && needIndex;
    }

    method SubmitIndexInput(val: nat)
      requires Valid() && backend.VariablePrimitive? && needIndex
      modifies this
      ensures Valid() && View() == SubmitIndex(old(View()), val)
    {
      vertexNum := val;
      bufferCur := 1;
      mainVertexNum := backend.main;
      totalVertexNum := val;
      needIndex := false;
    }

    /** `std::copy` behind what is buffered. */
    method Append(data: seq<V>)
      requires Valid() && !backend.Direct? && bufferCur + |data| <= RegisterCount(backend)
      modifies this`bufferCur, Registers()
      ensures Valid() && View() == old(View()).(buffered := old(View().buffered) + data)
    {
      CopyTo(Registers(), bufferCur, data);
      assert Registers()[Base(backend)..bufferCur] == Registers()[..bufferCur][Base(backend)..];
      bufferCur := bufferCur + |data|;
    }

    method SubmitVertexOutput(input: seq<V>)
      requires Valid() && |input| == ATTRIBUTES && Room(View())
      modifies this, attributeBuffer, uniforms
      ensures Valid() && View() == SubmitVertex(old(View()), input)
    {
      match backend {
        case Direct => sent := sent + [ToAssembler(input)];
        case VariablePrimitive(_, _) => SubmitVariable(input);
        case Point(_, _) => SubmitCounted(input);
        case FixedPrimitive(_, _, _) => SubmitCounted(input);
      }
    }

    /** The point and fixed primitive modes. */
    method SubmitCounted(input: seq<V>)
      requires Valid() && |input| == ATTRIBUTES && Room(View()) && (backend.Point? || backend.FixedPrimitive?)
      modifies this, Registers()
      ensures Valid() && View() == SubmitVertex(old(View()), input)
    {
      Append(input[..backend.output]);
      if bufferCur == Base(backend) + Capacity(backend) {
        sent := sent + [Invoke(Registers()[Base(backend)..bufferCur])];
        bufferCur := Base(backend);
      }
    }

    method SubmitVariable(input: seq<V>)
      requires Valid() && |input| == ATTRIBUTES && Room(View()) && backend.VariablePrimitive?
      modifies this, Registers()
      ensures Valid() && View() == SubmitVertex(old(View()), input)
    {
      if mainVertexNum != 0 {
        Append(input[..backend.output]);
        mainVertexNum := mainVertexNum - 1;
      } else {
        Append([input[0]]);
      }
      totalVertexNum := (totalVertexNum - 1) % U32;
      if totalVertexNum == 0 {
        needIndex := true;
        sent := sent + [InvokeCounted(vertexNum, Registers()[Base(backend)..bufferCur])];
      }
    }
  }
}
