/**
 `SPSCQueue`: a linked list with a dummy node at the write end and a separate size counter, shared by one
 producer and one consumer without locks. The machine takes the individual memory steps of `Push` and `Pop`
 in any interleaving; memory is sequentially consistent and the allocator may hand out freed addresses again.
 */
module SpscQueue {
  import opened Common

  type Address = nat

  /** `ElementPtr`. */
  datatype Node<T> = Node(current: Option<T>, next: Option<Address>)

  /** Where `Push` stands: between calls, or after its first, second or third step. */
  datatype Producer = Resting | Filled | Linked(added: Address) | Advanced

  /** Where `Pop` stands. */
  datatype Consumer<T> =
    | Waiting
    | SawItem                              // `Empty()` returned false
    | Counted                              // `--size`
    | Detached(detached: Address)               // `read_ptr = tmpptr->next`
    | Took(detached: Address, value: T)         // `t = std::move(tmpptr->current)`
    | Unlinked(detached: Address, value: T)     // `tmpptr->next.store(nullptr)`

  /**
   `pushed` and `popped` record the values given to `Push` and returned by `Pop`. `Fault` stands for touching
   freed memory or null, deleting a node that still owns its successor, or letting the counter underflow.
   */
  datatype Machine<T> =
    | Fault
    | Machine(heap: map<Address, Node<T>>, readPtr: Option<Address>, writePtr: Address, size: nat,
              producer: Producer, consumer: Consumer<T>, pushed: seq<T>, popped: seq<T>)

  datatype Action<T> =
    | Fill(value: T)         // write_ptr->current = t
    | Link(added: Address)   // write_ptr->next = new ElementPtr()
    | Advance                // write_ptr = new_ptr
    | CountUp                // size++
    | TestEmpty
    | CountDown
    | Detach
    | Take
    | Unlink
    | Delete

  ghost predicate Enabled<T>(m: Machine<T>, a: Action<T>) {
    m.Machine? &&
    match a
    case Fill(_) => m.producer.Resting?
    case Link(added) => m.producer.Filled? && added !in m.heap
    case Advance => m.producer.Linked?
    case CountUp => m.producer.Advanced?
    case TestEmpty => m.consumer.Waiting?
    case CountDown => m.consumer.SawItem?
    case Detach => m.consumer.Counted?
    case Take => m.consumer.Detached?
    case Unlink => m.consumer.Took?
    case Delete => m.consumer.Unlinked?
  }

  ghost function Next<T>(m: Machine<T>, a: Action<T>): Machine<T>
    requires Enabled(m, a)
  {
    match a
    case Fill(value) =>
      if m.writePtr !in m.heap then Fault
      else m.(heap := m.heap[m.writePtr := m.heap[m.writePtr].(current := Some(value))],
              producer := Filled, pushed := m.pushed + [value])
    case Link(added) =>
      if m.writePtr !in m.heap then Fault
      else m.(heap := m.heap[added := Node(None, None)][m.writePtr := m.heap[m.writePtr].(next := Some(added))],
              producer := Linked(added))
    case Advance => m.(writePtr := m.producer.added, producer := Advanced)
    case CountUp => m.(size := m.size + 1, producer := Resting)
    case TestEmpty => if m.size == 0 then m else m.(consumer := SawItem)
    case CountDown => if m.size == 0 then Fault else m.(size := m.size - 1, consumer := Counted)
    case Detach =>
      if m.readPtr.None? || m.readPtr.value !in m.heap || m.heap[m.readPtr.value].next.None? then Fault
      else m.(readPtr := m.heap[m.readPtr.value].next, consumer := Detached(m.readPtr.value))
    case Take =>
      if m.consumer.detached !in m.heap || m.heap[m.consumer.detached].current.None? then Fault
      else m.(consumer := Took(m.consumer.detached, m.heap[m.consumer.detached].current.value))
    case Unlink =>
      if m.consumer.detached !in m.heap then Fault
      else m.(heap := m.heap[m.consumer.detached := m.heap[m.consumer.detached].(next := None)],
              consumer := Unlinked(m.consumer.detached, m.consumer.value))
    case Delete =>
      if m.consumer.detached !in m.heap || m.heap[m.consumer.detached].next.Some? then Fault
      else m.(heap := m.heap - {m.consumer.detached}, consumer := Waiting, popped := m.popped + [m.consumer.value])
  }

  function Initial<T>(a: Address): Machine<T> {
    Machine(map[a := Node(None, None)], Some(a), a, 0, Resting, Waiting, [], [])
  }

  ghost predicate IsRun<T>(states: seq<Machine<T>>, actions: seq<Action<T>>) {
    && |states| == |actions| + 1
    && (exists a :: states[0] == Initial(a))
    && forall i :: 0 <= i < |actions| ==> Enabled(states[i], actions[i]) && states[i + 1] == Next(states[i], actions[i])
  }

  // ---------------------------------------------------------------- invariant

  /** `chain` is the linked list from the read end to the node that has no successor yet. */
  ghost predicate IsChain<T>(heap: map<Address, Node<T>>, first: Option<Address>, chain: seq<Address>) {
    && chain != [] && first == Some(chain[0])
    && (forall i, j :: 0 <= i < j < |chain| ==> chain[i] != chain[j])
    && (forall i :: 0 <= i < |chain| ==> chain[i] in heap)
    && (forall i :: 0 <= i < |chain| ==> LinkedAt(heap, chain, i))
  }

  ghost predicate LinkedAt<T>(heap: map<Address, Node<T>>, chain: seq<Address>, i: nat)
    requires i < |chain|
  {
    chain[i] in heap && heap[chain[i]].next == if i + 1 < |chain| then Some(chain[i + 1]) else None
  }

  function Holding<T>(c: Consumer<T>): nat {
    if c.Detached? || c.Took? || c.Unlinked? then 1 else 0
  }

  /** Nodes published by the producer that the counter does not show: at most one on either side. */
  function InFlight<T>(m: Machine<T>): nat
    requires m.Machine?
  {
    (if m.producer.Linked? || m.producer.Advanced? then 1 else 0) + (if m.consumer.Counted? then 1 else 0)
  }

  ghost predicate Shape<T>(m: Machine<T>, chain: seq<Address>) {
    && m.Machine?
    && IsChain(m.heap, m.readPtr, chain)
    && ProducerShape(m, chain)
    && ConsumerShape(m, chain)
    && m.size + InFlight(m) == |chain| - 1
    && (m.consumer.SawItem? ==> m.size > 0)
    && Values(m, chain)
  }

  ghost predicate ProducerShape<T>(m: Machine<T>, chain: seq<Address>)
    requires m.Machine? && chain != []
  {
    if m.producer.Linked? then
      |chain| > 1 && m.writePtr == chain[|chain| - 2] && m.producer.added == chain[|chain| - 1]
    else m.writePtr == chain[|chain| - 1]
  }

  ghost predicate ConsumerShape<T>(m: Machine<T>, chain: seq<Address>)
    requires m.Machine?
  {
    Holding(m.consumer) == 1 ==>
      && m.consumer.detached in m.heap && m.consumer.detached !in chain
      && |m.popped| < |m.pushed|
      && (m.consumer.Detached? ==> m.heap[m.consumer.detached].current == Some(m.pushed[|m.popped|]))
      && (!m.consumer.Detached? ==> m.consumer.value == m.pushed[|m.popped|])
      && (m.consumer.Unlinked? ==> m.heap[m.consumer.detached].next == None)
  }

  /** Everything popped is a prefix of what was pushed; the chain carries the rest. */
  ghost predicate Values<T>(m: Machine<T>, chain: seq<Address>)
    requires m.Machine? && chain != [] && forall i :: 0 <= i < |chain| ==> chain[i] in m.heap
  {
    var taken := |m.popped| + Holding(m.consumer);
    var filled := if m.producer.Filled? then 1 else 0;
    && |m.pushed| == taken + |chain| - 1 + filled
    && m.popped <= m.pushed
    && forall i :: 0 <= i < |chain| - 1 + filled ==> m.heap[chain[i]].current == Some(m.pushed[taken + i])
  }

  ghost predicate Inv<T>(m: Machine<T>) {
    exists chain :: Shape(m, chain)
  }

  lemma ProducerStep<T>(m: Machine<T>, a: Action<T>, chain: seq<Address>)
    requires Shape(m, chain) && Enabled(m, a) && (a.Fill? || a.Link? || a.Advance? || a.CountUp?)
    ensures Shape(Next(m, a), if a.Link? then chain + [a.added] else chain)
  {
    if a.Link? {
      LinkStep(m, a.added, chain);
    } else if a.Fill? {
      FillStep(m, a.value, chain);
    } else {
      ChainKept(m, Next(m, a), chain);
    }
  }

  lemma FillStep<T>(m: Machine<T>, value: T, chain: seq<Address>)
    requires Shape(m, chain) && Enabled(m, Fill(value))
    ensures Shape(Next(m, Fill(value)), chain)
  {
    var after := Next(m, Fill(value));
    ChainKept(m, after, chain);
    assert forall i :: 0 <= i < |chain| - 1 ==> after.heap[chain[i]] == m.heap[chain[i]];
    assert Values(after, chain);
  }

  /** A new last node, reached from the one that was last. */
  lemma LongerChain<T>(heap: map<Address, Node<T>>, first: Option<Address>, chain: seq<Address>, added: Address)
    requires IsChain(heap, first, chain) && added !in heap
    ensures var last := chain[|chain| - 1];
            IsChain(heap[added := Node(None, None)][last := heap[last].(next := Some(added))], first, chain + [added])
  {
    var last, longer := chain[|chain| - 1], chain + [added];
    var after := heap[added := Node(None, None)][last := heap[last].(next := Some(added))];
    forall i | 0 <= i < |longer|
      ensures longer[i] in after && LinkedAt(after, longer, i)
    {
      if i < |chain| {
        assert LinkedAt(heap, chain, i);
        assert i < |chain| - 1 ==> chain[i] != last;
      }
    }
  }

  lemma LinkStep<T>(m: Machine<T>, added: Address, chain: seq<Address>)
    requires Shape(m, chain) && Enabled(m, Link(added))
    ensures Shape(Next(m, Link(added)), chain + [added])
  {
    var after, longer := Next(m, Link(added)), chain + [added];
    LongerChain(m.heap, m.readPtr, chain, added);
    assert forall i :: 0 <= i < |chain| ==> longer[i] == chain[i] && after.heap[longer[i]].current == m.heap[chain[i]].current;
    assert Values(after, longer);
  }

  /** Nodes of the chain that keep their `next` keep the chain. */
  lemma ChainKept<T>(m: Machine<T>, after: Machine<T>, chain: seq<Address>)
    requires m.Machine? && after.Machine? && IsChain(m.heap, m.readPtr, chain) && after.readPtr == m.readPtr
    requires forall i :: 0 <= i < |chain| ==> chain[i] in after.heap && after.heap[chain[i]].next == m.heap[chain[i]].next
    ensures IsChain(after.heap, after.readPtr, chain)
  {
    forall i | 0 <= i < |chain|
      ensures LinkedAt(after.heap, chain, i)
    {
      assert LinkedAt(m.heap, chain, i);
    }
  }

  /** Without its first node the chain starts at the second. */
  lemma ShorterChain<T>(heap: map<Address, Node<T>>, first: Option<Address>, chain: seq<Address>)
    requires IsChain(heap, first, chain) && |chain| > 1
    ensures heap[chain[0]].next == Some(chain[1]) && IsChain(heap, Some(chain[1]), chain[1..])
    ensures chain[0] !in chain[1..]
  {
    assert LinkedAt(heap, chain, 0);
    var shorter := chain[1..];
    forall i | 0 <= i < |shorter|
      ensures shorter[i] in heap && LinkedAt(heap, shorter, i)
    {
      assert LinkedAt(heap, chain, i + 1);
    }
  }

  lemma DetachValues<T>(m: Machine<T>, after: Machine<T>, chain: seq<Address>)
    requires m.Machine? && |chain| > 1 && (forall i :: 0 <= i < |chain| ==> chain[i] in m.heap) && Values(m, chain)
    requires m.consumer.Counted? && after.Machine? && after.heap == m.heap && after.producer == m.producer
    requires after.consumer.Detached? && after.pushed == m.pushed && after.popped == m.popped
    ensures forall i :: 0 <= i < |chain[1..]| ==> chain[1..][i] in after.heap
    ensures Values(after, chain[1..]) && m.heap[chain[0]].current == Some(m.pushed[|m.popped|])
  {
    assert forall i :: 0 <= i < |chain[1..]| ==> chain[1..][i] == chain[i + 1];
    assert m.heap[chain[0]].current == Some(m.pushed[|m.popped| + 0]);
  }

  lemma DetachStep<T>(m: Machine<T>, chain: seq<Address>)
    requires Shape(m, chain) && m.consumer.Counted?
    ensures Shape(Next(m, Detach), chain[1..])
  {
    var after := Next(m, Detach);
    ShorterChain(m.heap, m.readPtr, chain);
    DetachValues(m, after, chain);
    assert ProducerShape(after, chain[1..]);
  }

  lemma ConsumerStep<T>(m: Machine<T>, a: Action<T>, chain: seq<Address>)
    requires Shape(m, chain) && Enabled(m, a) && (a.TestEmpty? || a.CountDown? || a.Take? || a.Unlink? || a.Delete?)
    ensures Shape(Next(m, a), chain)
  {
    ChainKept(m, Next(m, a), chain);
  }

  lemma StepKeepsInv<T>(m: Machine<T>, a: Action<T>)
    requires Inv(m) && Enabled(m, a)
    ensures Inv(Next(m, a))
  {
    var chain :| Shape(m, chain);
    if a.Fill? || a.Link? || a.Advance? || a.CountUp? {
      ProducerStep(m, a, chain);
    } else if a.Detach? {
      DetachStep(m, chain);
    } else {
      ConsumerStep(m, a, chain);
    }
  }

  lemma {:induction false} RunKeepsInv<T>(states: seq<Machine<T>>, actions: seq<Action<T>>, i: nat)
    requires IsRun(states, actions) && i <= |actions|
    ensures Inv(states[i])
  {
    if i > 0 {
      RunKeepsInv(states, actions, i - 1);
      StepKeepsInv(states[i - 1], actions[i - 1]);
    } else {
      var a :| states[0] == Initial(a);
      assert Shape(states[0], [a]);
    }
  }

  // ---------------------------------------------------------------- what every interleaving guarantees

  /** No run touches freed memory, and popped values are the oldest pushed ones in their order. */
  lemma PopsInOrder<T>(states: seq<Machine<T>>, actions: seq<Action<T>>, i: nat)
    requires IsRun(states, actions) && i <= |actions|
    ensures states[i].Machine? && states[i].popped <= states[i].pushed
  {
    RunKeepsInv(states, actions, i);
  }

  /** `size` counts the published nodes except those of the calls in flight, so it never exceeds them. */
  lemma SizeBelowPublished<T>(states: seq<Machine<T>>, actions: seq<Action<T>>, i: nat)
    requires IsRun(states, actions) && i <= |actions|
    ensures states[i].Machine?
    ensures exists chain :: IsChain(states[i].heap, states[i].readPtr, chain) && states[i].size + InFlight(states[i]) == |chain| - 1
  {
    RunKeepsInv(states, actions, i);
  }

  /** A `Pop` that has passed the empty test finds a successor node, however much the producer has done since. */
  lemma PopFindsNext<T>(states: seq<Machine<T>>, actions: seq<Action<T>>, i: nat)
    requires IsRun(states, actions) && i <= |actions|
    requires states[i].Machine? && (states[i].consumer.SawItem? || states[i].consumer.Counted?)
    ensures states[i].readPtr.Some? && states[i].readPtr.value in states[i].heap
    ensures states[i].heap[states[i].readPtr.value].next.Some?
  {
    RunKeepsInv(states, actions, i);
    var chain :| Shape(states[i], chain);
    assert LinkedAt(states[i].heap, chain, 0);
  }

  /** With both sides at rest nothing is lost: the counter is the number of values pushed and not yet popped. */
  lemma QuiescentSize<T>(states: seq<Machine<T>>, actions: seq<Action<T>>, i: nat)
    requires IsRun(states, actions) && i <= |actions|
    requires states[i].Machine? && states[i].producer.Resting? && states[i].consumer.Waiting?
    ensures states[i].size == |states[i].pushed| - |states[i].popped|
    ensures |states[i].heap| >= 1
  {
    RunKeepsInv(states, actions, i);
    var chain :| Shape(states[i], chain);
    assert LinkedAt(states[i].heap, chain, 0);
  }

  // ---------------------------------------------------------------- several producers

  /** `MPSCQueue`: producers are numbered and take `write_lock` around `Push`; values carry their producer. */
  datatype Shared<T> = Shared(queue: Machine<(nat, T)>, holder: Option<nat>)

  datatype SharedAction<T> =
    | Acquire(who: nat)
    | Produce(who: nat, step: Action<(nat, T)>)
    | Release(who: nat)
    | Consume(step: Action<(nat, T)>)

  predicate IsProducerStep<T>(a: Action<T>) {
    a.Fill? || a.Link? || a.Advance? || a.CountUp?
  }

  ghost predicate SharedEnabled<T>(s: Shared<T>, a: SharedAction<T>) {
    match a
    case Acquire(_) => s.holder.None?
    case Produce(who, step) =>
      s.holder == Some(who) && IsProducerStep(step) && Enabled(s.queue, step) && (step.Fill? ==> step.value.0 == who)
    case Release(who) => s.holder == Some(who) && s.queue.Machine? && s.queue.producer.Resting?
    case Consume(step) => !IsProducerStep(step) && Enabled(s.queue, step)
  }

  ghost function SharedNext<T>(s: Shared<T>, a: SharedAction<T>): Shared<T>
    requires SharedEnabled(s, a)
  {
    match a
    case Acquire(who) => s.(holder := Some(who))
    case Produce(_, step) => s.(queue := Next(s.queue, step))
    case Release(_) => s.(holder := None)
    case Consume(step) => s.(queue := Next(s.queue, step))
  }

  ghost predicate IsSharedRun<T>(states: seq<Shared<T>>, actions: seq<SharedAction<T>>) {
    && |states| == |actions| + 1
    && states[0].holder.None? && (exists a :: states[0].queue == Initial(a))
    && forall i :: 0 <= i < |actions| ==> SharedEnabled(states[i], actions[i]) && states[i + 1] == SharedNext(states[i], actions[i])
  }

  /** The values of one producer, in order. */
  function Of<T>(values: seq<(nat, T)>, who: nat): seq<T> {
    if values == [] then []
    else
      var last := values[|values| - 1];
      Of(values[..|values| - 1], who) + if last.0 == who then [last.1] else []
  }

  lemma {:induction false} OfPrefix<T>(a: seq<(nat, T)>, b: seq<(nat, T)>, who: nat)
    requires a <= b
    ensures Of(a, who) <= Of(b, who)
    decreases |b|
  {
    if a != b {
      assert a <= b[..|b| - 1];
      OfPrefix(a, b[..|b| - 1], who);
    }
  }

  lemma {:induction false} SharedRunKeepsInv<T>(states: seq<Shared<T>>, actions: seq<SharedAction<T>>, i: nat)
    requires IsSharedRun(states, actions) && i <= |actions|
    ensures Inv(states[i].queue) && (states[i].holder.None? ==> states[i].queue.producer.Resting?)
  {
    if i > 0 {
      SharedRunKeepsInv(states, actions, i - 1);
      var a := actions[i - 1];
      if a.Produce? || a.Consume? {
        StepKeepsInv(states[i - 1].queue, a.step);
      }
    } else {
      var a :| states[0].queue == Initial(a);
      assert Shape(states[0].queue, [a]);
    }
  }

  /** Each producer's values come out in the order it pushed them, whatever the others do. */
  lemma EachProducerInOrder<T>(states: seq<Shared<T>>, actions: seq<SharedAction<T>>, i: nat, who: nat)
    requires IsSharedRun(states, actions) && i <= |actions|
    ensures states[i].queue.Machine? && Of(states[i].queue.popped, who) <= Of(states[i].queue.pushed, who)
  {
    SharedRunKeepsInv(states, actions, i);
    OfPrefix(states[i].queue.popped, states[i].queue.pushed, who);
  }
}
