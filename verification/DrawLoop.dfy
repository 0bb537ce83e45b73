/**
 The draw loop of the command processor: vertices by number or through an index array, the vertex shader
 behind a 32-entry cache that is replaced in a circle, and the geometry pipeline.
 */
module DrawLoop {
  import opened Bytes
  import opened Common
  import opened GeometryPipeline
  import PrimitiveAssembly

  const VERTEX_CACHE_SIZE: nat := 32

  /** The registers of a draw and the index array in memory. */
  datatype DrawRegisters = DrawRegisters(indexed: bool, indexU16: bool, indices: seq<byte>, vertexOffset: nat, numVertices: nat)

  predicate DrawOk(d: DrawRegisters) {
    && d.vertexOffset < U32 && d.numVertices < U32
    && (d.indexed ==> d.numVertices * (if d.indexU16 then 2 else 1) <= |d.indices|)
  }

  type Draw = d: DrawRegisters | DrawOk(d) witness DrawRegisters(false, false, [], 0, 0)

  /** The number of the `i`-th vertex. The sum with the start offset wraps around. */
  function VertexNumber(d: Draw, i: nat): (v: nat)
    requires i < d.numVertices
    ensures v < U32 && (d.indexed ==> v < 0x1_0000)
  {
    if !d.indexed then (i + d.vertexOffset) % U32
    else if d.indexU16 then
      var low: int, high: int := d.indices[2 * i], d.indices[2 * i + 1];
      low + 0x100 * high
    else d.indices[i]
  }

  /** Entry `i` names vertex `number`: by 16 bits, low byte first, by one byte, or by its distance from the start offset. */
  predicate EntryNames(d: Draw, i: nat, number: nat)
    requires i < d.numVertices
  {
    if !d.indexed then number < U32 && (number - i - d.vertexOffset) % 0x1_0000_0000 == 0
    else if d.indexU16 then number < 0x1_0000 && d.indices[2 * i] == number % 256 && d.indices[2 * i + 1] == number / 256
    else d.indices[i] == number
  }

  /** The numbers that the index array, or the start offset, gives to the vertices of a draw. */
  ghost predicate NamedBy(d: Draw, numbers: seq<nat>) {
    |numbers| == d.numVertices && forall i: nat :: i < |numbers| ==> EntryNames(d, i, numbers[i])
  }

  /** Each vertex of the draw is the one its entry names, and no other. */
  lemma VertexIsNamed(d: Draw, i: nat, number: nat)
    requires i < d.numVertices
    ensures EntryNames(d, i, number) <==> VertexNumber(d, i) == number
  {
    if !d.indexed && number < U32 {
      var sum := i + d.vertexOffset;
      assert number - i - d.vertexOffset == number - sum;
      SameRemainder(number, sum);
    }
  }

  lemma SameRemainder(number: nat, sum: nat)
    requires number < U32
    ensures (number - sum) % 0x1_0000_0000 == 0 <==> number == sum % U32
  {
  }

  // ---------------------------------------------------------------- without a cache

  /** The vertex shader, with the attributes it loads, as a function of the vertex number. */
  type Shader<!V> = nat -> seq<V>

  ghost predicate ShaderOk<V>(shade: Shader<V>) {
    forall v :: |shade(v)| == ATTRIBUTES
  }

  predicate NeedsIndex<V>(p: Pipe<V>) {
    p.backend.VariablePrimitive? && p.needIndex
  }

  /** One vertex of a draw, shaded whenever it comes up. */
  function DrawVertex<V>(p: Pipe<V>, indexed: bool, vertex: nat, shaded: seq<V>): Pipe<V>
    requires |shaded| == ATTRIBUTES
  {
    if indexed && NeedsIndex(p) then SubmitIndex(p, vertex) else SubmitVertex(p, shaded)
  }

  /** The pipeline after the first `n` vertices. */
  ghost function Drawn<V>(p: Pipe<V>, d: Draw, shade: Shader<V>, n: nat): (q: Pipe<V>)
    requires n <= d.numVertices && ShaderOk(shade)
    ensures q.backend == p.backend
  {
    if n == 0 then p
    else
      var v := VertexNumber(d, n - 1);
      DrawVertex(Drawn(p, d, shade, n - 1), d.indexed, v, shade(v))
  }

  /** Every vertex finds room in the registers; the source does not check it. */
  ghost predicate DrawFits<V>(p: Pipe<V>, d: Draw, shade: Shader<V>)
    requires ShaderOk(shade)
  {
    forall n :: 0 <= n < d.numVertices ==> FitsAt(p, d, shade, n)
  }

  ghost predicate FitsAt<V>(p: Pipe<V>, d: Draw, shade: Shader<V>, n: nat)
    requires n < d.numVertices && ShaderOk(shade)
  {
    var q := Drawn(p, d, shade, n);
    (d.indexed && NeedsIndex(q)) || Room(q)
  }

  // ---------------------------------------------------------------- what a draw amounts to

  /** The shader outputs of the vertices from `from` to before `to`, in draw order. */
  ghost function Shades<V>(d: Draw, shade: Shader<V>, from: nat, to: nat): (outputs: seq<seq<V>>)
    requires ShaderOk(shade) && from <= to <= d.numVertices
    ensures |outputs| == to - from && AreVertices(outputs)
  {
    var outputs := seq(to - from, i requires 0 <= i < to - from => shade(VertexNumber(d, from + i)));
    assert forall i :: 0 <= i < |outputs| ==> |outputs[i]| == ATTRIBUTES by {
      forall i | 0 <= i < |outputs|
        ensures |outputs[i]| == ATTRIBUTES
      {
        assert |shade(VertexNumber(d, from + i))| == ATTRIBUTES;
      }
    }
    outputs
  }

  lemma ShadesSnoc<V>(d: Draw, shade: Shader<V>, from: nat, to: nat)
    requires ShaderOk(shade) && from <= to < d.numVertices
    ensures Shades(d, shade, from, to + 1) == Shades(d, shade, from, to) + [shade(VertexNumber(d, to))]
  {
  }

  /** Where no index is needed, a draw submits its shaded vertices one after the other. */
  lemma {:induction false} DrawnIsSubmitAll<V>(p: Pipe<V>, d: Draw, shade: Shader<V>, n: nat)
    requires ShaderOk(shade) && n <= d.numVertices && !p.backend.VariablePrimitive?
    ensures Drawn(p, d, shade, n) == SubmitAll(p, Shades(d, shade, 0, n))
  {
    if n > 0 {
      DrawnIsSubmitAll(p, d, shade, n - 1);
      ShadesSnoc(d, shade, 0, n - 1);
      var all := Shades(d, shade, 0, n);
      assert all[..n - 1] == Shades(d, shade, 0, n - 1) && all[n - 1] == shade(VertexNumber(d, n - 1));
    }
  }

  /** A whole draw in the point or fixed primitive mode: which vertices each invocation of the geometry shader gets. */
  lemma GatheringDraw<V>(p: Pipe<V>, d: Draw, shade: Shader<V>)
    requires ShaderOk(shade) && (p.backend.Point? || p.backend.FixedPrimitive?) && p.buffered == []
    ensures PerInvocation(p.backend) > 0
    ensures var q := Drawn(p, d, shade, d.numVertices);
            && q.sent == p.sent + Invocations(Shades(d, shade, 0, d.numVertices), PerInvocation(p.backend), p.backend.output)
            && (IsEmpty(q) <==> d.numVertices % PerInvocation(p.backend) == 0)
  {
    CapacityIs(p.backend);
    var inputs := Shades(d, shade, 0, d.numVertices);
    DrawnIsSubmitAll(p, d, shade, d.numVertices);
    StreamOfVertices(p, inputs, PerInvocation(p.backend));
    EmptyAfterIff(p, inputs);
  }

  /** A draw in the point mode always fits the registers, one in the fixed mode if one invocation does. */
  lemma GatheringDrawFits<V>(p: Pipe<V>, d: Draw, shade: Shader<V>)
    requires ShaderOk(shade) && p.buffered == []
    requires p.backend.Point? || (p.backend.FixedPrimitive? && p.backend.start + p.backend.vertices * p.backend.output <= UNIFORMS)
    ensures DrawFits(p, d, shade)
  {
    forall n | 0 <= n < d.numVertices
      ensures FitsAt(p, d, shade, n)
    {
      DrawnIsSubmitAll(p, d, shade, n);
      StreamHasRoom(p, Shades(d, shade, 0, n));
    }
  }

  lemma FillingNext<V>(before: Pipe<V>, val: nat, inputs: seq<seq<V>>, vertex: nat, shaded: seq<V>)
    requires before.backend.VariablePrimitive? && val < U32 && |shaded| == ATTRIBUTES
    requires AreVertices(inputs) && |inputs| < Awaited(val)
    ensures AreVertices(inputs + [shaded])
    ensures DrawVertex(Filling(before, val, inputs), true, vertex, shaded) == Filling(before, val, inputs + [shaded])
  {
    var all := inputs + [shaded];
    assert all[..|all| - 1] == inputs;
    FillingStep(before, val, all);
  }

  /** A draw in the variable mode, at an entry that is taken as an index. */
  ghost predicate AtIndex<V>(p: Pipe<V>, d: Draw, shade: Shader<V>, i: nat) {
    && ShaderOk(shade) && p.backend.VariablePrimitive? && d.indexed
    && i < d.numVertices && Drawn(p, d, shade, i).needIndex
  }

  /**
   In the variable mode the draw reads an index and then its vertices, again and again: from any point where it
   needs an index, the next entries fill the primitive that index announced.
   */
  lemma PrimitiveDrawn<V>(p: Pipe<V>, d: Draw, shade: Shader<V>, i: nat, end: nat)
    requires AtIndex(p, d, shade, i) && i < end <= d.numVertices && end - i - 1 <= Awaited(VertexNumber(d, i))
    ensures Drawn(p, d, shade, end) == Filling(Drawn(p, d, shade, i), VertexNumber(d, i), Shades(d, shade, i + 1, end))
  {
    VariableDrawStarts(p, d, shade, i);
    VariableDrawGoesOn(p, d, shade, i + 1, end, Drawn(p, d, shade, i), VertexNumber(d, i));
  }

  /** After the entries from `from` to before `n`, those vertices have been gathered. */
  ghost predicate FilledBy<V>(p: Pipe<V>, d: Draw, shade: Shader<V>, from: nat, n: nat, before: Pipe<V>, val: nat) {
    && ShaderOk(shade) && from <= n <= d.numVertices && before.backend.VariablePrimitive?
    && Drawn(p, d, shade, n) == Filling(before, val, Shades(d, shade, from, n))
  }

  /** The entries behind an index fill the primitive. */
  lemma {:induction false} VariableDrawGoesOn<V>(p: Pipe<V>, d: Draw, shade: Shader<V>, from: nat, n: nat, before: Pipe<V>, val: nat)
    requires FilledBy(p, d, shade, from, from, before, val)
    requires d.indexed && from <= n <= d.numVertices && val < U32 && n - from <= Awaited(val)
    ensures FilledBy(p, d, shade, from, n, before, val)
    decreases n
  {
    if from < n {
      VariableDrawGoesOn(p, d, shade, from, n - 1, before, val);
      VariableDrawNext(p, d, shade, from, n - 1, n, before, val);
    }
  }

  lemma VariableDrawNext<V>(p: Pipe<V>, d: Draw, shade: Shader<V>, from: nat, n: nat, next: nat, before: Pipe<V>, val: nat)
    requires FilledBy(p, d, shade, from, n, before, val)
    requires d.indexed && n < d.numVertices && next == n + 1 && val < U32 && n - from < Awaited(val)
    ensures FilledBy(p, d, shade, from, next, before, val)
  {
    ShadesSnoc(d, shade, from, n);
    DrawnFilling(p, d, shade, n, before, val, Shades(d, shade, from, n));
  }

  lemma VariableDrawStarts<V>(p: Pipe<V>, d: Draw, shade: Shader<V>, i: nat)
    requires AtIndex(p, d, shade, i)
    ensures Drawn(p, d, shade, i + 1) == Filling(Drawn(p, d, shade, i), VertexNumber(d, i), Shades(d, shade, i + 1, i + 1))
  {
    VariableInvocation(Drawn(p, d, shade, i), VertexNumber(d, i), []);
    assert Shades(d, shade, i + 1, i + 1) == [];
  }

  lemma DrawnFilling<V>(p: Pipe<V>, d: Draw, shade: Shader<V>, n: nat, before: Pipe<V>, val: nat, inputs: seq<seq<V>>)
    requires ShaderOk(shade) && d.indexed && n < d.numVertices
    requires before.backend.VariablePrimitive? && val < U32
    requires AreVertices(inputs) && |inputs| < Awaited(val) && Drawn(p, d, shade, n) == Filling(before, val, inputs)
    ensures AreVertices(inputs + [shade(VertexNumber(d, n))])
    ensures Drawn(p, d, shade, n + 1) == Filling(before, val, inputs + [shade(VertexNumber(d, n))])
  {
    FillingNext(before, val, inputs, VertexNumber(d, n), shade(VertexNumber(d, n)));
  }

  /** Where the primitive that entry `i` announces ends, or the draw if that is earlier. */
  function PrimitiveEnd(d: Draw, i: nat): (end: nat)
    requires i < d.numVertices
    ensures i < end <= d.numVertices && end - i - 1 <= Awaited(VertexNumber(d, i))
    ensures end < d.numVertices ==> end - i - 1 == Awaited(VertexNumber(d, i))
  {
    Min(i + 1 + Awaited(VertexNumber(d, i)), d.numVertices)
  }

  /** From entry `i` on, the vertices of every primitive that the index array announces fit the uniforms. */
  predicate AnnouncedFit(d: Draw, b: Backend, i: nat)
    requires b.VariablePrimitive?
    decreases d.numVertices - i
  {
    i >= d.numVertices ||
    var end := PrimitiveEnd(d, i);
    PrimitiveSize(b, end - i - 1) <= UNIFORMS && AnnouncedFit(d, b, end)
  }

  /** Within a primitive: `k` vertices follow the entry that announces it, the last of them drawn by entry `n`. */
  lemma VertexFitsIff<V>(p: Pipe<V>, d: Draw, shade: Shader<V>, i: nat, n: nat, k: nat)
    requires AtIndex(p, d, shade, i) && i < n < PrimitiveEnd(d, i) && n == i + k
    ensures FitsAt(p, d, shade, n) <==> PrimitiveSize(p.backend, k) <= UNIFORMS
  {
    var before, val, inputs := Drawn(p, d, shade, i), VertexNumber(d, i), Shades(d, shade, i + 1, n);
    PrimitiveDrawn(p, d, shade, i, n);
    FillingFitsAt(p, d, shade, n, before, val, inputs);
    FillingRoomIff(before, val, inputs, k);
  }

  lemma FillingFitsAt<V>(p: Pipe<V>, d: Draw, shade: Shader<V>, n: nat, before: Pipe<V>, val: nat, inputs: seq<seq<V>>)
    requires ShaderOk(shade) && n < d.numVertices
    requires before.backend.VariablePrimitive? && AreVertices(inputs) && |inputs| < Awaited(val)
    requires Drawn(p, d, shade, n) == Filling(before, val, inputs)
    ensures FitsAt(p, d, shade, n) <==> Room(Filling(before, val, inputs))
  {
  }

  lemma IndexFits<V>(p: Pipe<V>, d: Draw, shade: Shader<V>, i: nat)
    requires AtIndex(p, d, shade, i)
    ensures FitsAt(p, d, shade, i)
  {
  }

  /** The vertices from `i` to before `end`. */
  ghost predicate FitRange<V>(p: Pipe<V>, d: Draw, shade: Shader<V>, i: nat, end: nat)
    requires ShaderOk(shade) && end <= d.numVertices
  {
    forall n :: i <= n < end ==> FitsAt(p, d, shade, n)
  }

  lemma FitRangeSplit<V>(p: Pipe<V>, d: Draw, shade: Shader<V>, i: nat, mid: nat, end: nat)
    requires ShaderOk(shade) && i <= mid <= end <= d.numVertices
    ensures FitRange(p, d, shade, i, end) <==> FitRange(p, d, shade, i, mid) && FitRange(p, d, shade, mid, end)
  {
  }

  lemma EarlierFits<V>(p: Pipe<V>, d: Draw, shade: Shader<V>, i: nat, n: nat, j: nat, k: nat)
    requires AtIndex(p, d, shade, i) && i <= n < PrimitiveEnd(d, i) && n == i + j && j <= k
    requires PrimitiveSize(p.backend, k) <= UNIFORMS
    ensures FitsAt(p, d, shade, n)
  {
    if j == 0 {
      IndexFits(p, d, shade, i);
    } else {
      PrimitiveGrows(p.backend, j, k);
      VertexFitsIff(p, d, shade, i, n, j);
    }
  }

  lemma PrimitiveFits<V>(p: Pipe<V>, d: Draw, shade: Shader<V>, i: nat, end: nat, k: nat)
    requires AtIndex(p, d, shade, i) && end == PrimitiveEnd(d, i) && end == i + k + 1 && PrimitiveSize(p.backend, k) <= UNIFORMS
    ensures FitRange(p, d, shade, i, end)
  {
    forall n | i <= n < end
      ensures FitsAt(p, d, shade, n)
    {
      EarlierFits(p, d, shade, i, n, n - i, k);
    }
  }

  /** One primitive, of `k` vertices, fits if its last vertex does. */
  lemma PrimitiveFitsIff<V>(p: Pipe<V>, d: Draw, shade: Shader<V>, i: nat, end: nat, k: nat)
    requires AtIndex(p, d, shade, i) && end == PrimitiveEnd(d, i) && end == i + k + 1
    ensures FitRange(p, d, shade, i, end) <==> PrimitiveSize(p.backend, k) <= UNIFORMS
  {
    if PrimitiveSize(p.backend, k) <= UNIFORMS {
      PrimitiveFits(p, d, shade, i, end, k);
    } else {
      VertexFitsIff(p, d, shade, i, i + k, k);
      assert !FitsAt(p, d, shade, i + k);
    }
  }

  lemma EndNeedsIndex<V>(p: Pipe<V>, d: Draw, shade: Shader<V>, i: nat, end: nat)
    requires AtIndex(p, d, shade, i) && end == PrimitiveEnd(d, i)
    ensures end < d.numVertices ==> AtIndex(p, d, shade, end)
  {
    PrimitiveDrawn(p, d, shade, i, end);
  }

  lemma {:induction false} VariableDrawFitsFrom<V>(p: Pipe<V>, d: Draw, shade: Shader<V>, i: nat)
    requires ShaderOk(shade) && p.backend.VariablePrimitive? && d.indexed
    requires i <= d.numVertices && (i < d.numVertices ==> AtIndex(p, d, shade, i))
    ensures FitRange(p, d, shade, i, d.numVertices) <==> AnnouncedFit(d, p.backend, i)
    decreases d.numVertices - i
  {
    if i < d.numVertices {
      var end := PrimitiveEnd(d, i);
      EndNeedsIndex(p, d, shade, i, end);
      PrimitiveFitsIff(p, d, shade, i, end, end - i - 1);
      FitRangeSplit(p, d, shade, i, end, d.numVertices);
      VariableDrawFitsFrom(p, d, shade, end);
    }
  }

  /** What can be seen of a draw before it begins: whether its vertices stay within the registers. */
  predicate FitsRegisters(b: Backend, d: Draw)
  {
    match b
    case Direct => true
    case Point(_, _) => true
    case FixedPrimitive(output, vertices, start) => start + Min(vertices, d.numVertices) * output <= UNIFORMS
    case VariablePrimitive(_, _) => AnnouncedFit(d, b, 0)
  }

  /** In the fixed mode a vertex of the first invocation fits if and only if the vertices up to it do. */
  lemma FixedVertexFitsIff<V>(p: Pipe<V>, d: Draw, shade: Shader<V>, n: nat)
    requires ShaderOk(shade) && p.backend.FixedPrimitive? && p.buffered == []
    requires n < d.numVertices && n < p.backend.vertices
    ensures FitsAt(p, d, shade, n) <==> p.backend.start + (n + 1) * p.backend.output <= UNIFORMS
  {
    DrawnIsSubmitAll(p, d, shade, n);
    OneInvocation(p, Shades(d, shade, 0, n));
    OneMore(n, n + 1, p.backend.output);
  }

  lemma FixedDrawFitsIff<V>(p: Pipe<V>, d: Draw, shade: Shader<V>, k: nat)
    requires ShaderOk(shade) && p.backend.FixedPrimitive? && p.buffered == []
    requires k == Min(p.backend.vertices, d.numVertices)
    ensures DrawFits(p, d, shade) <==> p.backend.start + k * p.backend.output <= UNIFORMS
  {
    if k > 0 {
      FixedVertexFitsIff(p, d, shade, k - 1);
    }
    if p.backend.start + k * p.backend.output <= UNIFORMS {
      if k == p.backend.vertices {
        GatheringDrawFits(p, d, shade);
      } else {
        forall n | 0 <= n < d.numVertices
          ensures FitsAt(p, d, shade, n)
        {
          FixedVertexFitsIff(p, d, shade, n);
          SmallerMultiple(n, k, p.backend.output);
          OneMore(n, n + 1, p.backend.output);
        }
      }
    }
  }

  /**
   The exact condition for a draw, in any mode, to stay within the registers: nothing in the source checks it, but
   registers and index array tell beforehand.
   */
  lemma DrawFitsIff<V>(b: Backend, sent: seq<Call<V>>, d: Draw, shade: Shader<V>)
    requires ShaderOk(shade) && (b.VariablePrimitive? ==> d.indexed)
    ensures DrawFits(Fresh(b, sent), d, shade) <==> FitsRegisters(b, d)
  {
    var p := Fresh(b, sent);
    match b {
      case Direct =>
      case Point(_, _) => GatheringDrawFits(p, d, shade);
      case FixedPrimitive(_, vertices, _) => FixedDrawFitsIff(p, d, shade, Min(vertices, d.numVertices));
      case VariablePrimitive(_, _) => VariableDrawFitsFrom(p, d, shade, 0);
    }
  }

  /** For example, an index array that announces six main vertices of sixteen attributes. */
  lemma AnnouncedPrimitiveOverruns(shade: Shader<int>)
    requires ShaderOk(shade)
    ensures !DrawFits(Fresh(VariablePrimitive(16, 6), []), DrawRegisters(true, false, [6, 0, 0, 0, 0, 0, 0], 0, 7), shade)
  {
    var d: Draw := DrawRegisters(true, false, [6, 0, 0, 0, 0, 0, 0], 0, 7);
    PrimitiveSizeIs(VariablePrimitive(16, 6), 6);
    assert PrimitiveEnd(d, 0) == 7;
    DrawFitsIff<int>(VariablePrimitive(16, 6), [], d, shade);
  }

  /** Without a geometry shader: the calls of the assembler, in draw order. */
  lemma {:induction false} DirectDraw<V>(p: Pipe<V>, d: Draw, shade: Shader<V>, n: nat)
    requires ShaderOk(shade) && p.backend.Direct? && n <= d.numVertices
    ensures Drawn(p, d, shade, n) ==
            p.(sent := p.sent + seq(n, i requires 0 <= i < n => ToAssembler(shade(VertexNumber(d, i)))))
  {
    var calls := seq(n, i requires 0 <= i < n => ToAssembler(shade(VertexNumber(d, i))));
    if n > 0 {
      DirectDraw(p, d, shade, n - 1);
      var fewer := seq(n - 1, i requires 0 <= i < n - 1 => ToAssembler(shade(VertexNumber(d, i))));
      assert calls == fewer + [ToAssembler(shade(VertexNumber(d, n - 1)))];
    } else {
      assert p.sent + calls == p.sent;
    }
  }

  /** What the assembler is given by calls without a geometry shader; `convert` makes the vertex the rasterizer uses. */
  function AssemblerEvents<V, W>(calls: seq<Call<V>>, convert: seq<V> -> W): seq<PrimitiveAssembly.Event<W>>
    requires forall i :: 0 <= i < |calls| ==> calls[i].ToAssembler?
  {
    seq(|calls|, i requires 0 <= i < |calls| => PrimitiveAssembly.Vertex(convert(calls[i].vertex)))
  }

  lemma {:induction false} OnlyVertices<W>(events: seq<PrimitiveAssembly.Event<W>>, b: nat)
    requires forall i :: 0 <= i < |events| ==> events[i].Vertex?
    ensures |PrimitiveAssembly.Vertices(events)| == |events|
    ensures forall i :: 0 <= i < |events| ==> PrimitiveAssembly.Vertices(events)[i] == events[i].v
    ensures !PrimitiveAssembly.Requested(events, b)
    decreases |events|
  {
    if events != [] {
      OnlyVertices(events[..|events| - 1], b);
    }
  }

  /** With vertices only, no triangle is inverted. */
  lemma TriangleOfVertices<W>(topology: PrimitiveAssembly.Topology, events: seq<PrimitiveAssembly.Event<W>>, k: nat)
    requires forall i :: 0 <= i < |events| ==> events[i].Vertex?
    requires k < PrimitiveAssembly.TriangleCount(topology, |events|)
    ensures |PrimitiveAssembly.Vertices(events)| == |events|
    ensures PrimitiveAssembly.TriangleAt(topology, events, k) ==
            match topology
            case Strip =>
              if k % 2 == 0 then PrimitiveAssembly.Triangle(events[k].v, events[k + 1].v, events[k + 2].v)
              else PrimitiveAssembly.Triangle(events[k + 1].v, events[k].v, events[k + 2].v)
            case Fan => PrimitiveAssembly.Triangle(events[0].v, events[k + 1].v, events[k + 2].v)
            case List => PrimitiveAssembly.Triangle(events[3 * k].v, events[3 * k + 1].v, events[3 * k + 2].v)
            case Shader => PrimitiveAssembly.Triangle(events[3 * k].v, events[3 * k + 1].v, events[3 * k + 2].v)
  {
    OnlyVertices(events, 3 * k);
  }

  /** The vertices of a draw, converted. */
  ghost function Corners<V, W>(d: Draw, shade: Shader<V>, convert: seq<V> -> W): (corners: seq<W>)
    ensures |corners| == d.numVertices && forall i :: 0 <= i < |corners| ==> corners[i] == convert(shade(VertexNumber(d, i)))
  {
    seq(d.numVertices, i requires 0 <= i < d.numVertices => convert(shade(VertexNumber(d, i))))
  }

  /** The assembler is given the converted vertices of the draw, in their order. */
  lemma EventsOfDraw<V, W>(d: Draw, shade: Shader<V>, convert: seq<V> -> W)
    requires ShaderOk(shade)
    ensures var sent := Drawn(Fresh(Direct, []), d, shade, d.numVertices).sent;
            && (forall i :: 0 <= i < |sent| ==> sent[i].ToAssembler?)
            && var events := AssemblerEvents(sent, convert);
            && |events| == d.numVertices
            && forall i :: 0 <= i < |events| ==> events[i] == PrimitiveAssembly.Vertex(Corners(d, shade, convert)[i])
  {
    DirectDraw(Fresh(Direct, []), d, shade, d.numVertices);
  }

  /** The `k`-th triangle of a draw of these vertices into an assembler that was empty, for every topology. */
  lemma TrianglesOfDraw<V, W>(d: Draw, numbers: seq<nat>, shade: Shader<V>, convert: seq<V> -> W, topology: PrimitiveAssembly.Topology,
                              k: nat)
    requires ShaderOk(shade) && NamedBy(d, numbers) && k < PrimitiveAssembly.TriangleCount(topology, d.numVertices)
    ensures var sent := Drawn(Fresh(Direct, []), d, shade, d.numVertices).sent;
            && (forall i :: 0 <= i < |sent| ==> sent[i].ToAssembler?)
            && var triangles := PrimitiveAssembly.Triangles(topology, AssemblerEvents(sent, convert));
            var c := (i: nat) requires i < |numbers| => convert(shade(numbers[i]));
            && |triangles| == PrimitiveAssembly.TriangleCount(topology, |numbers|)
            && triangles[k] ==
               match topology
               case Strip =>
                 if k % 2 == 0 then PrimitiveAssembly.Triangle(c(k), c(k + 1), c(k + 2))
                 else PrimitiveAssembly.Triangle(c(k + 1), c(k), c(k + 2))
               case Fan => PrimitiveAssembly.Triangle(c(0), c(k + 1), c(k + 2))
               case List => PrimitiveAssembly.Triangle(c(3 * k), c(3 * k + 1), c(3 * k + 2))
               case Shader => PrimitiveAssembly.Triangle(c(3 * k), c(3 * k + 1), c(3 * k + 2))
  {
    EventsOfDraw(d, shade, convert);
    var events := AssemblerEvents(Drawn(Fresh(Direct, []), d, shade, d.numVertices).sent, convert);
    forall i: nat | i < |events|
      ensures events[i].v == convert(shade(numbers[i]))
    {
      VertexIsNamed(d, i, numbers[i]);
      assert events[i].v == Corners(d, shade, convert)[i];
    }
    TriangleOfVertices(topology, events, k);
  }

  /** The shader outputs for a part of a list of vertex numbers. */
  ghost function ShadesOf<V>(numbers: seq<nat>, shade: Shader<V>): (outputs: seq<seq<V>>)
    requires ShaderOk(shade)
    ensures |outputs| == |numbers| && AreVertices(outputs)
    ensures forall i :: 0 <= i < |numbers| ==> outputs[i] == shade(numbers[i])
  {
    var outputs := seq(|numbers|, i requires 0 <= i < |numbers| => shade(numbers[i]));
    assert forall i :: 0 <= i < |outputs| ==> outputs[i] == shade(numbers[i]);
    outputs
  }

  lemma ShadesAreOf<V>(d: Draw, numbers: seq<nat>, shade: Shader<V>, from: nat, to: nat)
    requires ShaderOk(shade) && NamedBy(d, numbers) && from <= to <= d.numVertices
    ensures Shades(d, shade, from, to) == ShadesOf(numbers[from..to], shade)
  {
    forall i: nat | i < to - from
      ensures Shades(d, shade, from, to)[i] == shade(numbers[from..to][i])
    {
      VertexIsNamed(d, from + i, numbers[from + i]);
    }
  }

  /**
   In the variable mode the draw reads an index and then its vertices, again and again: from any point where it
   needs an index, the next entry announces a primitive and the entries behind it fill it.
   */
  lemma VariableDraw<V>(p: Pipe<V>, d: Draw, numbers: seq<nat>, shade: Shader<V>, i: nat, end: nat)
    requires AtIndex(p, d, shade, i) && NamedBy(d, numbers)
    requires i < end <= d.numVertices && end - i - 1 <= Awaited(numbers[i])
    ensures Drawn(p, d, shade, end) == Filling(Drawn(p, d, shade, i), numbers[i], ShadesOf(numbers[i + 1..end], shade))
  {
    VertexIsNamed(d, i, numbers[i]);
    ShadesAreOf(d, numbers, shade, i + 1, end);
    PrimitiveDrawn(p, d, shade, i, end);
  }

  /** The last of those entries makes the call, with the number that announced it, and the next entry is an index again. */
  lemma PrimitiveCall<V>(p: Pipe<V>, d: Draw, numbers: seq<nat>, shade: Shader<V>, i: nat, end: nat)
    requires AtIndex(p, d, shade, i) && NamedBy(d, numbers) && i < end <= d.numVertices
    requires end - i - 1 == if numbers[i] == 0 then 0x1_0000_0000 else numbers[i]
    ensures Drawn(p, d, shade, end).needIndex
    ensures Drawn(p, d, shade, end).sent == Drawn(p, d, shade, i).sent +
            [InvokeCounted(numbers[i], GatherPrimitive(ShadesOf(numbers[i + 1..end], shade), p.backend.main, p.backend.output))]
  {
    VariableDraw(p, d, numbers, shade, i, end);
  }

  /** Invocation `j` of a draw in the point or fixed primitive mode: attribute `k` of its vertex `i`. */
  lemma InvocationOfDraw<V>(p: Pipe<V>, d: Draw, numbers: seq<nat>, shade: Shader<V>, m: nat, j: nat, i: nat, k: nat, first: nat)
    requires ShaderOk(shade) && (p.backend.Point? || p.backend.FixedPrimitive?) && p.buffered == [] && NamedBy(d, numbers)
    requires m == (if p.backend.Point? then p.backend.inputs / p.backend.output else p.backend.vertices)
    requires i < m && k < p.backend.output && first == j * m && first + m <= |numbers|
    ensures var sent := Drawn(p, d, shade, d.numVertices).sent;
            && p.sent <= sent
            && InvokedWith(sent[|p.sent|..], j, i, k, p.backend.output, shade(numbers[first + i])[k])
  {
    var inputs := Shades(d, shade, 0, d.numVertices);
    GatheringDraw(p, d, shade);
    ShadesAreOf(d, numbers, shade, 0, d.numVertices);
    assert numbers[0..d.numVertices] == numbers;
    InvocationAt(inputs, m, p.backend.output, j, i, k, first);
    assert (p.sent + Invocations(inputs, m, p.backend.output))[|p.sent|..] == Invocations(inputs, m, p.backend.output);
  }

  /** The pipeline after vertices with these numbers. */
  ghost function DrawnOf<V>(p: Pipe<V>, indexed: bool, numbers: seq<nat>, shade: Shader<V>): Pipe<V>
    requires ShaderOk(shade)
  {
    if numbers == [] then p
    else
      var n := |numbers| - 1;
      DrawVertex(DrawnOf(p, indexed, numbers[..n], shade), indexed, numbers[n], shade(numbers[n]))
  }

  /** A draw depends on its registers and index array only through the numbers they give. */
  lemma {:induction false} DrawnIsOf<V>(p: Pipe<V>, d: Draw, numbers: seq<nat>, shade: Shader<V>, n: nat)
    requires ShaderOk(shade) && NamedBy(d, numbers) && n <= d.numVertices
    ensures Drawn(p, d, shade, n) == DrawnOf(p, d.indexed, numbers[..n], shade)
  {
    if n > 0 {
      DrawnIsOf(p, d, numbers, shade, n - 1);
      VertexIsNamed(d, n - 1, numbers[n - 1]);
      assert numbers[..n][..n - 1] == numbers[..n - 1];
    }
  }

  /** `after` is the pipeline after the vertices that the registers and the index array name. */
  ghost predicate FollowsNumbers<V>(after: Pipe<V>, before: Pipe<V>, d: Draw, shade: Shader<V>)
    requires ShaderOk(shade)
  {
    forall numbers :: NamedBy(d, numbers) ==> after == DrawnOf(before, d.indexed, numbers, shade)
  }

  lemma DrawFollowsNumbers<V>(p: Pipe<V>, d: Draw, shade: Shader<V>)
    requires ShaderOk(shade)
    ensures FollowsNumbers(Drawn(p, d, shade, d.numVertices), p, d, shade)
  {
    forall numbers | NamedBy(d, numbers)
      ensures Drawn(p, d, shade, d.numVertices) == DrawnOf(p, d.indexed, numbers, shade)
    {
      DrawnIsOf(p, d, numbers, shade, d.numVertices);
      assert numbers[..d.numVertices] == numbers;
    }
  }

  /** There is such a list for every draw, and only one. */
  lemma NumbersExist(d: Draw) returns (numbers: seq<nat>)
    ensures NamedBy(d, numbers)
    ensures forall other :: NamedBy(d, other) ==> other == numbers
  {
    numbers := seq(d.numVertices, i requires 0 <= i < d.numVertices => VertexNumber(d, i));
    forall i: nat | i < d.numVertices
      ensures EntryNames(d, i, numbers[i])
    {
      VertexIsNamed(d, i, numbers[i]);
    }
    forall other | NamedBy(d, other)
      ensures other == numbers
    {
      forall i: nat | i < d.numVertices
        ensures other[i] == numbers[i]
      {
        VertexIsNamed(d, i, other[i]);
      }
    }
  }

  // ---------------------------------------------------------------- the cache

  class VertexCache<V(0)> {
    const valid: array<bool>
    const ids: array<nat>
    const vertices: array<seq<V>>
    var pos: nat

    /** Every valid entry holds what the shader gives for its vertex. Vertex numbers are kept in 16 bits. */
    ghost predicate Valid(shade: Shader<V>)
      reads this, valid, ids, vertices
    {
      && valid.Length == VERTEX_CACHE_SIZE == ids.Length == vertices.Length && pos < VERTEX_CACHE_SIZE
      && forall i :: 0 <= i < VERTEX_CACHE_SIZE && valid[i] ==> vertices[i] == shade(ids[i])
    }

    constructor (ghost shade: Shader<V>)
      ensures Valid(shade) && fresh(valid) && fresh(ids) && fresh(vertices)
    {
      valid := new bool[VERTEX_CACHE_SIZE](_ => false);
      ids := new nat[VERTEX_CACHE_SIZE](_ => 0);
      vertices := new seq<V>[VERTEX_CACHE_SIZE](_ => []);
      pos := 0;
    }

    method Lookup(vertex: nat, ghost shade: Shader<V>) returns (hit: bool, output: seq<V>)
      requires Valid(shade)
      ensures hit ==> output == shade(vertex)
      ensures !hit ==> forall i :: 0 <= i < VERTEX_CACHE_SIZE ==> !(valid[i] && ids[i] == vertex)
    {
      var i := 0;
      while i < VERTEX_CACHE_SIZE
        invariant 0 <= i <= VERTEX_CACHE_SIZE
        invariant forall j :: 0 <= j < i ==> !(valid[j] && ids[j] == vertex)
      {
        if valid[i] && vertex == ids[i] {
          return true, vertices[i];
        }
        i := i + 1;
      }
      return false, [];
    }

    /** Replaces the entry at the position, which moves on in a circle. */
    method Store(vertex: nat, output: seq<V>, ghost shade: Shader<V>)
      requires Valid(shade) && vertex < 0x1_0000 && output == shade(vertex)
      modifies this`pos, valid, ids, vertices
      ensures Valid(shade) && pos == (old(pos) + 1) % VERTEX_CACHE_SIZE
      ensures valid[old(pos)] && ids[old(pos)] == vertex
      ensures forall i :: 0 <= i < VERTEX_CACHE_SIZE && i != old(pos) ==>
                valid[i] == old(valid[i]) && ids[i] == old(ids[i]) && vertices[i] == old(vertices[i])
    {
      vertices[pos] := output;
      valid[pos] := true;
      ids[pos] := vertex % 0x1_0000;
      pos := (pos + 1) % VERTEX_CACHE_SIZE;
    }

    /** The cache is used for indexed draws only. */
    method Shaded(indexed: bool, vertex: nat, shade: Shader<V>) returns (output: seq<V>)
      requires Valid(shade) && (indexed ==> vertex < 0x1_0000)
      modifies this`pos, valid, ids, vertices
      ensures Valid(shade) && output == shade(vertex)
    {
      var hit := false;
      if indexed {
        hit, output := Lookup(vertex, shade);
      }
      if !hit {
        output := shade(vertex);
        if indexed {
          Store(vertex, output, shade);
        }
      }
    }
  }

  /**
   A draw with the cache hands the geometry pipeline exactly what a draw without it would. A primitive of
   variable length needs an index array.
   */
  method DrawArrays<V(0)>(pipeline: GeometryPipeline<V>, b: Backend, d: Draw, shade: Shader<V>)
    requires ShaderOk(shade) && (b.VariablePrimitive? ==> d.indexed)
    requires pipeline.Valid() && IsEmpty(pipeline.View()) && FitsRegisters(b, d)
    modifies pipeline, pipeline.attributeBuffer, pipeline.uniforms
    ensures pipeline.Valid() && pipeline.View() == Drawn(Fresh(b, old(pipeline.sent)), d, shade, d.numVertices)
    ensures FollowsNumbers(pipeline.View(), Fresh(b, old(pipeline.sent)), d, shade)
  {
    var cache := new VertexCache<V>(shade);
    ghost var start := Fresh(b, pipeline.sent);
    DrawFitsIff(b, pipeline.sent, d, shade);
    pipeline.Reconfigure(b);
    var index := 0;
    while index < d.numVertices
      invariant 0 <= index <= d.numVertices
      invariant pipeline.Valid() && cache.Valid(shade) && fresh(cache.valid) && fresh(cache.ids) && fresh(cache.vertices)
      invariant pipeline.View() == Drawn(start, d, shade, index)
    {
      DrawNext(pipeline, cache, d, shade, index, start);
      index := index + 1;
    }
    DrawFollowsNumbers(start, d, shade);
  }

  method DrawNext<V(0)>(pipeline: GeometryPipeline<V>, cache: VertexCache<V>, d: Draw, shade: Shader<V>, index: nat, ghost start: Pipe<V>)
    requires ShaderOk(shade) && index < d.numVertices
    requires pipeline.Valid() && cache.Valid(shade) && cache.valid != pipeline.attributeBuffer
    requires pipeline.View() == Drawn(start, d, shade, index) && FitsAt(start, d, shade, index)
    modifies pipeline, pipeline.attributeBuffer, pipeline.uniforms, cache`pos, cache.valid, cache.ids, cache.vertices
    ensures pipeline.Valid() && cache.Valid(shade)
    ensures pipeline.View() == Drawn(start, d, shade, index + 1)
  {
    var vertex := VertexNumber(d, index);
    if d.indexed {
      var needs := pipeline.NeedIndexInput();
      if needs {
        pipeline.SubmitIndexInput(vertex);
        return;
      }
    }
    var output := cache.Shaded(d.indexed, vertex, shade);
    pipeline.SubmitVertexOutput(output);
  }
}
