/** Triangles from a stream of vertices: `PrimitiveAssembler` and the closed form of what it emits. */
module PrimitiveAssembly {

  datatype Topology = List | Strip | Fan | Shader

  datatype Triangle<V> = Triangle(v0: V, v1: V, v2: V)

  /** What reaches the assembler: vertices, and the geometry shader's requests to invert the next triangle. */
  datatype Event<V> = Vertex(v: V) | Winding

  // ---------------------------------------------------------------- closed form

  /** The vertices among `events`. */
  function Vertices<V>(events: seq<Event<V>>): seq<V> {
    if events == [] then []
    else
      var last := events[|events| - 1];
      Vertices(events[..|events| - 1]) + if last.Vertex? then [last.v] else []
  }

  /** The geometry shader asks for an inversion while the triangle begun after `b` vertices is in progress. */
  function Requested<V>(events: seq<Event<V>>, b: nat): bool {
    events != [] &&
    var init := events[..|events| - 1];
    Requested(init, b) || (events[|events| - 1].Winding? && b <= |Vertices(init)| < b + 3)
  }

  predicate RequestAt<V>(events: seq<Event<V>>, i: nat, b: nat)
    requires i < |events|
  {
    events[i].Winding? && b <= |Vertices(events[..i])| < b + 3
  }

  lemma {:induction false} RequestedIff<V>(events: seq<Event<V>>, b: nat)
    ensures Requested(events, b) <==> exists i :: 0 <= i < |events| && RequestAt(events, i, b)
    decreases |events|
  {
    if events != [] {
      var n := |events| - 1;
      var init := events[..n];
      RequestedIff(init, b);
      forall i | 0 <= i < n
        ensures RequestAt(events, i, b) <==> RequestAt(init, i, b)
      {
        assert init[..i] == events[..i];
      }
      assert RequestAt(events, n, b) <==> events[n].Winding? && b <= |Vertices(init)| < b + 3;
    }
  }

  /** The number of triangles that `n` vertices complete. */
  function TriangleCount(topology: Topology, n: nat): nat {
    if topology.List? || topology.Shader? then n / 3 else if n < 2 then 0 else n - 2
  }

  /** The `k`-th triangle: three of a kind, a strip that alternates its first two, or a fan around the first vertex. */
  function TriangleAt<V>(topology: Topology, events: seq<Event<V>>, k: nat): Triangle<V>
    requires k < TriangleCount(topology, |Vertices(events)|)
  {
    var vs := Vertices(events);
    match topology
    case List => Triangle(vs[3 * k], vs[3 * k + 1], vs[3 * k + 2])
    case Shader =>
      if Requested(events, 3 * k) then Triangle(vs[3 * k + 1], vs[3 * k], vs[3 * k + 2])
      else Triangle(vs[3 * k], vs[3 * k + 1], vs[3 * k + 2])
    case Strip => if k % 2 == 0 then Triangle(vs[k], vs[k + 1], vs[k + 2]) else Triangle(vs[k + 1], vs[k], vs[k + 2])
    case Fan => Triangle(vs[0], vs[k + 1], vs[k + 2])
  }

  /** With a geometry shader, three vertices make a triangle; its first two change places if that was asked for in time. */
  lemma TriangleOfShader<V>(events: seq<Event<V>>, k: nat)
    requires k < |Vertices(events)| / 3
    ensures var vs := Vertices(events);
            TriangleAt(Shader, events, k) ==
            if exists i :: 0 <= i < |events| && events[i].Winding? && 3 * k <= |Vertices(events[..i])| < 3 * k + 3
            then Triangle(vs[3 * k + 1], vs[3 * k], vs[3 * k + 2]) else Triangle(vs[3 * k], vs[3 * k + 1], vs[3 * k + 2])
  {
    RequestedIff(events, 3 * k);
    assert forall i :: 0 <= i < |events| ==>
      (RequestAt(events, i, 3 * k) <==> events[i].Winding? && 3 * k <= |Vertices(events[..i])| < 3 * k + 3);
  }

  function Triangles<V>(topology: Topology, events: seq<Event<V>>): seq<Triangle<V>> {
    seq(TriangleCount(topology, |Vertices(events)|),
        k requires 0 <= k < TriangleCount(topology, |Vertices(events)|) => TriangleAt(topology, events, k))
  }

  lemma VerticesSnoc<V>(events: seq<Event<V>>, e: Event<V>)
    ensures Vertices(events + [e]) == Vertices(events) + if e.Vertex? then [e.v] else []
  {
    assert (events + [e])[..|events|] == events;
  }

  lemma RequestedSnoc<V>(events: seq<Event<V>>, e: Event<V>, b: nat)
    ensures Requested(events + [e], b) == (Requested(events, b) || (e.Winding? && b <= |Vertices(events)| < b + 3))
  {
    assert (events + [e])[..|events|] == events;
  }

  /** Nothing asks for a triangle whose vertices have not begun to arrive. */
  lemma {:induction false} NotRequestedYet<V>(events: seq<Event<V>>, b: nat)
    requires |Vertices(events)| < b
    ensures !Requested(events, b)
    decreases |events|
  {
    if events != [] {
      NotRequestedYet(events[..|events| - 1], b);
    }
  }

  /** Later events leave the triangles that are complete as they were. */
  lemma TriangleStays<V>(topology: Topology, events: seq<Event<V>>, e: Event<V>, k: nat)
    requires k < TriangleCount(topology, |Vertices(events)|)
    ensures k < TriangleCount(topology, |Vertices(events + [e])|)
    ensures TriangleAt(topology, events + [e], k) == TriangleAt(topology, events, k)
  {
    VerticesSnoc(events, e);
    RequestedSnoc(events, e, 3 * k);
  }

  lemma TrianglesSnoc<V>(topology: Topology, events: seq<Event<V>>, e: Event<V>)
    ensures TriangleCount(topology, |Vertices(events)|) <= TriangleCount(topology, |Vertices(events + [e])|)
            <= TriangleCount(topology, |Vertices(events)|) + 1
    ensures var n := TriangleCount(topology, |Vertices(events)|);
            Triangles(topology, events + [e]) ==
            Triangles(topology, events) +
            if n < TriangleCount(topology, |Vertices(events + [e])|) then [TriangleAt(topology, events + [e], n)] else []
  {
    VerticesSnoc(events, e);
    var n := TriangleCount(topology, |Vertices(events)|);
    forall k | 0 <= k < n
      ensures TriangleAt(topology, events + [e], k) == TriangleAt(topology, events, k)
    {
      TriangleStays(topology, events, e, k);
    }
  }

  // ---------------------------------------------------------------- the assembler

  /** What the buffer holds after the vertices `vs`, slots that will be written before they are read left open. */
  predicate Remembers<V(==)>(topology: Topology, vs: seq<V>, index: nat, buffer: seq<V>, ready: bool)
    requires |buffer| == 2
  {
    var n := |vs|;
    match topology
    case Strip =>
      && index == n % 2 && ready == (n >= 2)
      && (n >= 1 ==> buffer[(n - 1) % 2] == vs[n - 1]) && (n >= 2 ==> buffer[n % 2] == vs[n - 2])
    case Fan =>
      && index == (if n == 0 then 0 else 1) && ready == (n >= 2)
      && (n >= 1 ==> buffer[0] == vs[0]) && (n >= 2 ==> buffer[1] == vs[n - 1])
    case _ =>
      && index == n % 3 && !ready
      && (n % 3 >= 1 ==> buffer[0] == vs[n - n % 3]) && (n % 3 == 2 ==> buffer[1] == vs[n - 1])
  }

  lemma RemembersList<V>(topology: Topology, vs: seq<V>, v: V, index: nat, buffer: seq<V>)
    requires |buffer| == 2 && (topology.List? || topology.Shader?) && Remembers(topology, vs, index, buffer, false)
    ensures index < 2 ==> Remembers(topology, vs + [v], index + 1, buffer[index := v], false) && (|vs| + 1) / 3 == |vs| / 3
    ensures index >= 2 ==>
              && Remembers(topology, vs + [v], 0, buffer, false) && |vs| == 3 * (|vs| / 3) + 2 && (|vs| + 1) / 3 == |vs| / 3 + 1
              && buffer[0] == vs[|vs| - 2] && buffer[1] == vs[|vs| - 1]
  {
  }

  lemma RemembersStrip<V>(topology: Topology, vs: seq<V>, v: V, index: nat, buffer: seq<V>, ready: bool)
    requires |buffer| == 2 && (topology.Strip? || topology.Fan?) && Remembers(topology, vs, index, buffer, ready)
    ensures index < 2 && ready == (|vs| >= 2)
    ensures Remembers(topology, vs + [v], if topology.Strip? && index == 1 then 0 else 1, buffer[index := v], ready || index == 1)
    ensures ready && topology.Strip? ==>
              Triangle(buffer[0], buffer[1], v) ==
              if |vs| % 2 == 0 then Triangle(vs[|vs| - 2], vs[|vs| - 1], v) else Triangle(vs[|vs| - 1], vs[|vs| - 2], v)
    ensures ready && topology.Fan? ==> Triangle(buffer[0], buffer[1], v) == Triangle(vs[0], vs[|vs| - 1], v)
  {
  }

  /** The number of vertices when the triangle in progress began. */
  function Begun(n: nat): nat {
    if n < 3 then 0 else 3 + Begun(n - 3)
  }

  lemma {:induction false} BegunIs(n: nat)
    ensures Begun(n) == n / 3 * 3
  {
    if n >= 3 {
      BegunIs(n - 3);
    }
  }

  lemma BegunNext(n: nat)
    ensures Begun(n) <= n < Begun(n) + 3 && n - Begun(n) == n % 3
    ensures Begun(n + 1) == if n - Begun(n) == 2 then Begun(n) + 3 else Begun(n)
  {
    BegunIs(n);
    BegunIs(n + 1);
  }

  /** An inversion was requested for the triangle in progress. */
  predicate InvertsNext<V>(events: seq<Event<V>>) {
    Requested(events, Begun(|Vertices(events)|))
  }

  lemma NextNotRequested<V>(events: seq<Event<V>>, e: Event<V>, b: nat)
    requires e.Vertex? && |Vertices(events)| < b
    ensures !Requested(events + [e], b)
  {
    NotRequestedYet(events, b);
    RequestedSnoc(events, e, b);
  }

  /** `b` and `b'` are where the triangles in progress begin before and after `e`. */
  lemma InvertsFrom<V>(events: seq<Event<V>>, e: Event<V>, b: nat, b': nat)
    requires b <= |Vertices(events)| < b + 3
    requires b' == if e.Vertex? && |Vertices(events)| == b + 2 then b + 3 else b
    ensures Requested(events + [e], b') == (e.Winding? || (Requested(events, b) && |Vertices(events)| < b + 2))
  {
    if b' == b {
      RequestedSnoc(events, e, b);
    } else {
      NextNotRequested(events, e, b');
    }
  }

  lemma InvertsNextSnoc<V>(events: seq<Event<V>>, e: Event<V>)
    ensures InvertsNext(events + [e]) <==>
            e.Winding? || (InvertsNext(events) && |Vertices(events)| % 3 < 2)
  {
    BegunNext(|Vertices(events)|);
    VerticesSnoc(events, e);
    InvertsFrom(events, e, Begun(|Vertices(events)|), Begun(|Vertices(events + [e])|));
  }

  class PrimitiveAssembler<V(0, ==)> {
    var topology: Topology
    var bufferIndex: nat
    const buffer: array<V>
    var stripReady: bool
    var winding: bool

    /** What the triangle handler has been given. */
    var handled: seq<Triangle<V>>
    /** Since the last reset, and what had been handled until then. */
    ghost var events: seq<Event<V>>
    ghost var earlier: seq<Triangle<V>>

    ghost predicate Valid()
      reads this, buffer
    {
      && buffer.Length == 2
      && handled == earlier + Triangles(topology, events)
      && Remembers(topology, Vertices(events), bufferIndex, buffer[..], stripReady)
      && (topology.Shader? ==> winding == InvertsNext(events))
    }

    constructor (topology: Topology)
      ensures Valid() && this.topology == topology && events == [] && earlier == [] && fresh(buffer)
    {
      this.topology := topology;
      bufferIndex, stripReady, winding, handled := 0, false, false, [];
      buffer := new V[2];
      events, earlier := [], [];
    }

    method SubmitVertex(vtx: V)
      requires Valid()
      modifies this, buffer
      ensures Valid() && topology == old(topology) && earlier == old(earlier) && events == old(events) + [Vertex(vtx)]
    {
      VerticesSnoc(events, Vertex(vtx));
      TrianglesSnoc(topology, events, Vertex(vtx));
      if topology == List || topology == Shader {
        SubmitToList(vtx);
      } else {
        SubmitToStrip(vtx);
      }
    }

    method SubmitToList(vtx: V)
      requires Valid() && (topology == List || topology == Shader)
      modifies this, buffer
      ensures Valid() && topology == old(topology) && earlier == old(earlier) && events == old(events) + [Vertex(vtx)]
    {
      ghost var all := events + [Vertex(vtx)];
      VerticesSnoc(events, Vertex(vtx));
      TrianglesSnoc(topology, events, Vertex(vtx));
      InvertsNextSnoc(events, Vertex(vtx));
      RemembersList(topology, Vertices(events), vtx, bufferIndex, buffer[..]);
      if bufferIndex < 2 {
        ghost var kept := buffer[..][bufferIndex := vtx];
        buffer[bufferIndex] := vtx;
        assert buffer[..] == kept;
        bufferIndex := bufferIndex + 1;
      } else {
        ghost var k := |Vertices(events)| / 3;
        BegunIs(|Vertices(events)|);
        RequestedSnoc(events, Vertex(vtx), 3 * k);
        bufferIndex := 0;
        if topology == Shader && winding {
          handled := handled + [Triangle(buffer[1], buffer[0], vtx)];
          winding := false;
        } else {
          handled := handled + [Triangle(buffer[0], buffer[1], vtx)];
        }
        assert handled == old(handled) + [TriangleAt(topology, all, k)];
      }
      events := all;
    }

    method SubmitToStrip(vtx: V)
      requires Valid() && (topology == Strip || topology == Fan)
      modifies this, buffer
      ensures Valid() && topology == old(topology) && earlier == old(earlier) && events == old(events) + [Vertex(vtx)]
    {
      ghost var all := events + [Vertex(vtx)];
      VerticesSnoc(events, Vertex(vtx));
      TrianglesSnoc(topology, events, Vertex(vtx));
      RemembersStrip(topology, Vertices(events), vtx, bufferIndex, buffer[..], stripReady);
      ghost var kept := buffer[..][bufferIndex := vtx];
      if stripReady {
        handled := handled + [Triangle(buffer[0], buffer[1], vtx)];
        assert handled == old(handled) + [TriangleAt(topology, all, |Vertices(events)| - 2)];
      }
      buffer[bufferIndex] := vtx;
      assert buffer[..] == kept;
      stripReady := stripReady || bufferIndex == 1;
      if topology == Strip {
        bufferIndex := if bufferIndex == 0 then 1 else 0;
      } else {
        bufferIndex := 1;
      }
      events := all;
    }

    method SetWinding()
      requires Valid()
      modifies this
      ensures Valid() && topology == old(topology) && earlier == old(earlier) && events == old(events) + [Winding]
    {
      VerticesSnoc(events, Winding);
      TrianglesSnoc(topology, events, Winding);
      InvertsNextSnoc(events, Winding);
      winding := true;
      events := events + [Winding];
    }

    method Reset()
      requires Valid()
      modifies this
      ensures Valid() && topology == old(topology) && handled == old(handled) && events == [] && earlier == handled
      ensures !winding && Remembers(Strip, [], bufferIndex, buffer[..], stripReady)
    {
      bufferIndex := 0;
      stripReady := false;
      winding := false;
      events, earlier := [], handled;
    }

    method Reconfigure(topology: Topology)
      requires Valid()
      modifies this
      ensures Valid() && this.topology == topology && handled == old(handled) && events == [] && earlier == handled
    {
      Reset();
      this.topology := topology;
      assert !InvertsNext<V>([]);
    }

    /** Empty means that no triangle is begun, which a strip or fan is from its first vertex on. */
    method IsEmpty() returns (empty: bool)
      requires Valid()
      ensures empty <==> |Vertices(events)| == 0 || ((topology == List || topology == Shader) && |Vertices(events)| % 3 == 0)
    {
      empty := bufferIndex == 0 && !stripReady;
    }
  }
}
