/**
 The events of `Core::Timing` and the heap algorithms that `Timer::event_queue` is kept with:
 `std::push_heap`, `std::pop_heap` and `std::make_heap` under `std::greater<>`, so the earliest
 event sits at index 0.
 */
module EventHeap {

  /** `time` and `fifoOrder` order the queue; `kind` stands for the registered event type. */
  datatype Event = Event(time: int, fifoOrder: nat, userData: nat, kind: string)

  /** `Event::operator<`: by time, and by the order of scheduling when the times are equal. */
  predicate Earlier(a: Event, b: Event) {
    a.time < b.time || (a.time == b.time && a.fifoOrder < b.fifoOrder)
  }

  function Parent(i: int): int
    requires 0 < i
  {
    (i - 1) / 2
  }

  /** The node at `i` is no earlier than its parent. */
  ghost predicate Follows(q: seq<Event>, i: int)
    requires 0 < i < |q|
  {
    !Earlier(q[i], q[Parent(i)])
  }

  /** Every node whose parent is at index `k` or later follows that parent. */
  ghost predicate HeapFrom(q: seq<Event>, k: nat) {
    forall i :: 0 < i < |q| && k <= Parent(i) ==> Follows(q, i)
  }

  ghost predicate IsHeap(q: seq<Event>) {
    HeapFrom(q, 0)
  }

  /** In a heap the front is an earliest event, and of several at one time the one that was scheduled first. */
  lemma {:induction false} FrontIsEarliest(q: seq<Event>, i: nat)
    requires IsHeap(q) && i < |q|
    ensures q[0].time < q[i].time || (q[0].time == q[i].time && q[0].fifoOrder <= q[i].fifoOrder)
    decreases i
  {
    if i > 0 {
      assert Follows(q, i);
      FrontIsEarliest(q, Parent(i));
    }
  }

  lemma SwapKeepsContents(q: seq<Event>, i: nat, j: nat)
    requires i < |q| && j < |q|
    ensures multiset(q[i := q[j]][j := q[i]]) == multiset(q)
  {
  }

  /** A heap except that the node at `i` may be earlier than its parent; the children of `i` follow that parent. */
  ghost predicate RisingAt(q: seq<Event>, i: nat) {
    && i < |q|
    && (forall j :: 0 < j < |q| && j != i ==> Follows(q, j))
    && (i > 0 ==> forall j :: 0 < j < |q| && Parent(j) == i ==> !Earlier(q[j], q[Parent(i)]))
  }

  /** A heap from `k` on except that the children of `i` may be earlier than `i`; they follow the parent of `i`. */
  ghost predicate SinkingAt(q: seq<Event>, k: nat, i: nat) {
    && (forall j :: 0 < j < |q| && k <= Parent(j) && Parent(j) != i ==> Follows(q, j))
    && (k < i ==> k <= Parent(i) && forall j :: 0 < j < |q| && Parent(j) == i ==> !Earlier(q[j], q[Parent(i)]))
  }

  lemma RiseStep(q: seq<Event>, i: nat)
    requires RisingAt(q, i) && i > 0 && Earlier(q[i], q[Parent(i)])
    ensures RisingAt(q[i := q[Parent(i)]][Parent(i) := q[i]], Parent(i))
  {
    var p := Parent(i);
    var r := q[i := q[p]][p := q[i]];
    forall j | 0 < j < |r| && j != p
      ensures Follows(r, j)
    {
      if j != i {
        assert Follows(q, j);
      }
    }
    if p > 0 {
      assert Follows(q, p);
      forall j | 0 < j < |r| && Parent(j) == p
        ensures !Earlier(r[j], r[Parent(p)])
      {
        if j != i {
          assert Follows(q, j);
        }
      }
    }
  }

  lemma SinkStep(q: seq<Event>, k: nat, i: nat, c: nat)
    requires k <= i && SinkingAt(q, k, i) && 0 < c < |q| && Parent(c) == i
    requires Earlier(q[c], q[i])
    requires forall j :: 0 < j < |q| && Parent(j) == i ==> !Earlier(q[j], q[c])
    ensures SinkingAt(q[i := q[c]][c := q[i]], k, c)
  {
    var r := q[i := q[c]][c := q[i]];
    forall j | 0 < j < |r| && k <= Parent(j) && Parent(j) != c
      ensures Follows(r, j)
    {
      if Parent(j) != i {
        assert Follows(q, j);
      }
    }
    forall j | 0 < j < |r| && Parent(j) == c
      ensures !Earlier(r[j], r[Parent(c)])
    {
      assert Follows(q, j);
    }
  }

  /** The earlier of the two children of `i`. */
  function EarlierChild(q: seq<Event>, i: nat): (c: nat)
    requires 2 * i + 1 < |q|
    ensures c < |q| && 0 < c && Parent(c) == i
    ensures forall j :: 0 < j < |q| && Parent(j) == i ==> !Earlier(q[j], q[c])
  {
    if 2 * i + 2 < |q| && Earlier(q[2 * i + 2], q[2 * i + 1]) then 2 * i + 2 else 2 * i + 1
  }

  lemma SinkDone(q: seq<Event>, k: nat, i: nat)
    requires k <= i && SinkingAt(q, k, i)
    requires 2 * i + 1 < |q| ==> !Earlier(q[EarlierChild(q, i)], q[i])
    ensures HeapFrom(q, k)
  {
    forall j | 0 < j < |q| && k <= Parent(j)
      ensures Follows(q, j)
    {
      if Parent(j) == i {
        assert !Earlier(q[j], q[EarlierChild(q, i)]);
      }
    }
  }

  /** `std::push_heap`: the last element joins the heap formed by the others. */
  method PushHeap(q: seq<Event>) returns (r: seq<Event>)
    requires |q| > 0 && IsHeap(q[..|q| - 1])
    ensures IsHeap(r) && multiset(r) == multiset(q) && |r| == |q|
  {
    r := q;
    var i := |q| - 1;
    assert RisingAt(r, i) by {
      forall j | 0 < j < |q| - 1
        ensures Follows(q, j)
      {
        assert Follows(q[..|q| - 1], j);
      }
    }
    while i > 0 && Earlier(r[i], r[Parent(i)])
      invariant 0 <= i < |r| == |q|
      invariant RisingAt(r, i)
      invariant multiset(r) == multiset(q)
    {
      var p := Parent(i);
      SwapKeepsContents(r, i, p);
      RiseStep(r, i);
      r := r[i := r[p]][p := r[i]];
      i := p;
    }
  }

  /** Restores the heap order at index `k` when it already holds below it. */
  method SiftDown(q: seq<Event>, k: nat) returns (r: seq<Event>)
    requires HeapFrom(q, k + 1)
    ensures HeapFrom(r, k) && multiset(r) == multiset(q) && |r| == |q|
  {
    r := q;
    var i := k;
    while 2 * i + 1 < |r|
      invariant k <= i && |r| == |q|
      invariant SinkingAt(r, k, i)
      invariant multiset(r) == multiset(q)
      decreases |r| - i
    {
      var c := EarlierChild(r, i);
      if !Earlier(r[c], r[i]) {
        break;
      }
      SwapKeepsContents(r, i, c);
      SinkStep(r, k, i, c);
      r := r[i := r[c]][c := r[i]];
      i := c;
    }
    SinkDone(r, k, i);
  }

  /** `std::pop_heap`: the front moves to the back and the rest is a heap again. */
  method PopHeap(q: seq<Event>) returns (r: seq<Event>)
    requires |q| > 0 && IsHeap(q)
    ensures |r| == |q| && r[|r| - 1] == q[0] && IsHeap(r[..|r| - 1])
    ensures multiset(r) == multiset(q)
  {
    var n := |q| - 1;
    SwapKeepsContents(q, 0, n);
    var swapped := q[0 := q[n]][n := q[0]];
    var rest := SiftDown(swapped[..n], 0);
    r := rest + [q[0]];
    assert swapped == swapped[..n] + [q[0]];
    assert r[..|r| - 1] == rest;
  }

  /** `std::make_heap`. */
  method MakeHeap(q: seq<Event>) returns (r: seq<Event>)
    ensures IsHeap(r) && multiset(r) == multiset(q) && |r| == |q|
  {
    r := q;
    var k := |q| / 2;
    while k > 0
      invariant 0 <= k <= |q| && |r| == |q|
      invariant HeapFrom(r, k)
      invariant multiset(r) == multiset(q)
    {
      k := k - 1;
      r := SiftDown(r, k);
    }
  }
}
