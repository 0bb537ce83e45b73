/**
 `RingBuffer`: a single-producer single-consumer queue over a fixed array whose read and write indices count
 up for ever and wrap at 2^64. A slot is taken as one value. First comes the arithmetic of the indices, then
 the machine in which the steps of a push and a pop interleave, and last the class.
 */
module RingBuffer {
  import opened Common

  const WORD: nat := 0x1_0000_0000_0000_0000

  // ---------------------------------------------------------------- indices

  /** The static assertions on the capacity: a power of two, less than half the range of the indices. */
  ghost predicate GoodCapacity(c: nat) {
    exists k: nat :: k < 63 && c == Pow2(k)
  }

  lemma WordIsPow2()
    ensures Pow2(64) == WORD
  {
    assert Pow2(8) == 0x100;
    Pow2Sum(8, 8);
    Pow2Sum(16, 16);
    Pow2Sum(32, 32);
  }

  lemma MultipleIsFar(d: int, c: nat)
    ensures d >= 1 ==> d * c >= c
    ensures d <= -1 ==> d * c + c <= 0
    ensures d == 0 ==> d * c == 0
  {
  }

  lemma ModUnique(q: int, c: nat, r: nat)
    requires r < c
    ensures (q * c + r) % c == r && (q * c + r) / c == q
  {
    var n := q * c + r;
    var d := n / c - q;
    assert n == (n / c) * c + n % c;
    assert d * c == r - n % c;
    MultipleIsFar(d, c);
  }

  lemma Regroup(q: int, m: int, d: int, c: int)
    ensures q * (m * c) + d * c == (q * m + d) * c
  {
    assert q * (m * c) == (q * m) * c;
  }

  lemma ModOfMultiple(n: nat, m: nat, c: nat)
    requires m > 0 && c > 0 && m * c > 0
    ensures (n % (m * c)) % c == n % c
  {
    var q, w := n / (m * c), n % (m * c);
    assert n == q * (m * c) + w;
    assert w == (w / c) * c + w % c;
    Regroup(q, m, w / c, c);
    ModUnique(q * m + w / c, c, w % c);
  }

  lemma {:induction false} Pow2Grows(j: nat, k: nat)
    requires j <= k
    ensures Pow2(j) <= Pow2(k)
    decreases k
  {
    if j < k {
      Pow2Grows(j, k - 1);
    }
  }

  lemma CapacityBound(c: nat)
    requires GoodCapacity(c)
    ensures 0 < c && 2 * c <= WORD
    ensures exists m: nat :: m > 0 && m * c == WORD
  {
    var k: nat :| k < 63 && c == Pow2(k);
    WordIsPow2();
    Pow2Grows(k + 1, 64);
    Pow2Sum(64 - k, k);
    assert Pow2(64 - k) * c == WORD;
  }

  /** A wrapped index selects the same slot as the unbounded count: the capacity divides 2^64. */
  lemma WrappedSlot(n: nat, c: nat)
    requires GoodCapacity(c)
    ensures 0 < c && (n % WORD) % c == n % c
  {
    CapacityBound(c);
    var m: nat :| m > 0 && m * c == WORD;
    ModOfMultiple(n, m, c);
  }

  /** Without that, a wrap of the index would jump to another slot. */
  lemma WrapNeedsDivisibility(c: nat)
    requires 0 < c
    ensures (forall n: nat :: (n % WORD) % c == n % c) <==> WORD % c == 0
  {
    if WORD % c == 0 {
      assert WORD == (WORD / c) * c;
      forall n: nat
        ensures (n % WORD) % c == n % c
      {
        ModOfMultiple(n, WORD / c, c);
      }
    } else {
      var n := WORD;
      assert n % WORD == 0;
      ModUnique(0, c, 0);
      assert (n % WORD) % c != n % c;
    }
  }

  /** For example, with three slots the count 2^64 belongs to slot 1, and the wrapped index selects slot 0. */
  lemma ThreeSlotsJump()
    ensures (WORD % WORD) % 3 == 0 && WORD % 3 == 1
  {
  }

  /** Slots of counts that are less than a capacity apart are different. */
  lemma NearSlotsDiffer(a: nat, b: nat, c: nat)
    requires a < b < a + c
    ensures a % c != b % c
  {
    var d := b / c - a / c;
    assert a == (a / c) * c + a % c && b == (b / c) * c + b % c;
    assert (b / c) * c - (a / c) * c == d * c;
    MultipleIsFar(d, c);
  }

  /** The slot of the k-th element of a transfer of `count` slots that begins at `index`: two straight copies. */
  function Slot(index: nat, c: nat, count: nat, k: nat): (slot: nat)
    requires k < count <= c
    ensures slot < c
  {
    var pos := index % c;
    var firstCopy := if c - pos < count then c - pos else count;
    if k < firstCopy then pos + k else k - firstCopy
  }

  lemma SlotIs(index: nat, c: nat, count: nat, k: nat)
    requires k < count <= c
    ensures Slot(index, c, count, k) == (index + k) % c
  {
    var q, pos := index / c, index % c;
    assert index == q * c + pos;
    if pos + k < c {
      ModUnique(q, c, pos + k);
    } else {
      assert index + k == (q + 1) * c + (pos + k - c);
      ModUnique(q + 1, c, pos + k - c);
    }
  }

  lemma WrapSum(n: nat, k: nat)
    ensures (n % WORD + k) % WORD == (n + k) % WORD
  {
  }

  lemma WrapFree(w: nat, r: nat, c: nat)
    requires r <= w <= r + c && c < WORD
    ensures (c + r % WORD - w % WORD) % WORD == c - (w - r)
  {
  }

  lemma WrapDifference(w: nat, r: nat)
    requires r <= w < r + WORD
    ensures (w % WORD - r % WORD) % WORD == w - r
  {
  }

  // ---------------------------------------------------------------- the step machine

  datatype Producer<T> =
    | NotPushing
    | SawWrite(input: seq<T>, writeIndex: nat)
    | CopyingIn(input: seq<T>, writeIndex: nat, count: nat, copied: nat)

  datatype Consumer<T> =
    | NotPopping
    | SawRead(limit: nat, readIndex: nat)
    | CopyingOut(readIndex: nat, count: nat, output: seq<T>)

  /**
   `accepted` and `delivered` are all slots that pushes have taken and pops have handed out. `Fault` stands for
   an access outside the array or outside the input.
   */
  datatype Machine<T> = Fault | Machine(data: seq<T>, readIndex: nat, writeIndex: nat, producer: Producer<T>, consumer: Consumer<T>,
                                accepted: seq<T>, delivered: seq<T>)

  datatype Action<T> =
    | BeginPush(input: seq<T>)   // load m_write_index
    | MeasureFree                // load m_read_index, fix push_count
    | CopyIn                     // one slot of the two memcpy calls
    | PublishWrite               // store m_write_index
    | BeginPop(limit: nat)       // load m_read_index
    | MeasureFilled              // load m_write_index, fix pop_count
    | CopyOut
    | PublishRead

  predicate Enabled<T>(m: Machine<T>, a: Action<T>) {
    m.Machine? &&
    match a
    case BeginPush(_) => m.producer.NotPushing?
    case MeasureFree => m.producer.SawWrite?
    case CopyIn => m.producer.CopyingIn? && m.producer.copied < m.producer.count
    case PublishWrite => m.producer.CopyingIn? && m.producer.copied == m.producer.count
    case BeginPop(_) => m.consumer.NotPopping?
    case MeasureFilled => m.consumer.SawRead?
    case CopyOut => m.consumer.CopyingOut? && |m.consumer.output| < m.consumer.count
    case PublishRead => m.consumer.CopyingOut? && |m.consumer.output| == m.consumer.count
  }

  /** Sizes and offsets are computed with the wrapping arithmetic of `size_t`. */
  function Next<T>(m: Machine<T>, a: Action<T>): Machine<T>
    requires Enabled(m, a)
  {
    match a
    case BeginPush(input) => m.(producer := SawWrite(input, m.writeIndex))
    case MeasureFree =>
      var free := (|m.data| + m.readIndex - m.producer.writeIndex) % WORD;
      m.(producer := CopyingIn(m.producer.input, m.producer.writeIndex, Min(|m.producer.input|, free), 0))
    case CopyIn =>
      var p := m.producer;
      if p.count > |m.data| || p.count > |p.input| then Fault
      else m.(data := m.data[Slot(p.writeIndex, |m.data|, p.count, p.copied) := p.input[p.copied]],
         producer := CopyingIn(p.input, p.writeIndex, p.count, p.copied + 1))
    case PublishWrite =>
      if m.producer.count > |m.producer.input| then Fault
      else m.(writeIndex := (m.producer.writeIndex + m.producer.count) % WORD, producer := NotPushing,
         accepted := m.accepted + m.producer.input[..m.producer.count])
    case BeginPop(limit) => m.(consumer := SawRead(limit, m.readIndex))
    case MeasureFilled =>
      var filled := (m.writeIndex - m.consumer.readIndex) % WORD;
      m.(consumer := CopyingOut(m.consumer.readIndex, Min(filled, m.consumer.limit), []))
    case CopyOut =>
      var c := m.consumer;
      if c.count > |m.data| then Fault
      else m.(consumer := CopyingOut(c.readIndex, c.count, c.output + [m.data[Slot(c.readIndex, |m.data|, c.count, |c.output|)]]))
    case PublishRead =>
      m.(readIndex := (m.consumer.readIndex + m.consumer.count) % WORD, consumer := NotPopping,
         delivered := m.delivered + m.consumer.output)
  }

  /** What is stored between the two ends, and what the call on either side is doing to it. */
  ghost predicate Inv<T>(m: Machine<T>) {
    m.Machine? &&
    var c, r, w := |m.data|, |m.delivered|, |m.accepted|;
    && GoodCapacity(c) && 0 < c
    && r <= w <= r + c
    && m.readIndex == r % WORD && m.writeIndex == w % WORD
    && m.delivered <= m.accepted
    && (forall i :: r <= i < w ==> m.data[i % c] == m.accepted[i])
    && ProducerOk(m)
    && ConsumerOk(m)
  }

  ghost predicate ProducerOk<T>(m: Machine<T>)
    requires m.Machine?
  {
    var c, r, w := |m.data|, |m.delivered|, |m.accepted|;
    match m.producer
    case NotPushing => true
    case SawWrite(input, writeIndex) => writeIndex == w % WORD
    case CopyingIn(input, writeIndex, count, copied) =>
      && writeIndex == w % WORD
      && 0 < c && count <= |input| && copied <= count && w + count <= r + c
      && forall k :: 0 <= k < copied ==> m.data[(w + k) % c] == input[k]
  }

  ghost predicate ConsumerOk<T>(m: Machine<T>)
    requires m.Machine?
  {
    var r, w := |m.delivered|, |m.accepted|;
    match m.consumer
    case NotPopping => true
    case SawRead(limit, readIndex) => readIndex == r % WORD
    case CopyingOut(readIndex, count, output) =>
      && readIndex == r % WORD
      && |output| <= count && r + count <= w
      && forall k :: 0 <= k < |output| ==> output[k] == m.accepted[r + k]
  }

  lemma MeasureFreeKeepsInv<T>(m: Machine<T>)
    requires Inv(m) && m.producer.SawWrite?
    ensures Inv(Next(m, MeasureFree))
    ensures Next(m, MeasureFree).producer.count == Min(|m.producer.input|, |m.data| - (|m.accepted| - |m.delivered|))
  {
    var c, r, w := |m.data|, |m.delivered|, |m.accepted|;
    CapacityBound(c);
    WrapFree(w, r, c);
    assert ConsumerOk(Next(m, MeasureFree));
  }

  lemma MeasureFilledKeepsInv<T>(m: Machine<T>)
    requires Inv(m) && m.consumer.SawRead?
    ensures Inv(Next(m, MeasureFilled))
    ensures Next(m, MeasureFilled).consumer.count == Min(|m.accepted| - |m.delivered|, m.consumer.limit)
  {
    CapacityBound(|m.data|);
    WrapDifference(|m.accepted|, |m.delivered|);
  }

  /** The slot a push is about to write is none of those that hold undelivered values. */
  lemma PushSlotIsFree<T>(m: Machine<T>, k: nat, i: nat)
    requires Inv(m) && m.producer.CopyingIn? && k < m.producer.count
    requires |m.delivered| <= i < |m.accepted| + k
    ensures m.producer.count <= |m.data|
    ensures Slot(m.producer.writeIndex, |m.data|, m.producer.count, k) == (|m.accepted| + k) % |m.data|
    ensures Slot(m.producer.writeIndex, |m.data|, m.producer.count, k) != i % |m.data|
  {
    var c, w := |m.data|, |m.accepted|;
    PushSlot(m, k);
    NearSlotsDiffer(i, w + k, c);
  }

  lemma PushSlot<T>(m: Machine<T>, k: nat)
    requires Inv(m) && m.producer.CopyingIn? && k < m.producer.count
    ensures m.producer.count <= |m.data|
    ensures Slot(m.producer.writeIndex, |m.data|, m.producer.count, k) == (|m.accepted| + k) % |m.data|
  {
    var c, w := |m.data|, |m.accepted|;
    WrappedSlot(w, c);
    SlotIs(m.producer.writeIndex, c, m.producer.count, k);
    SlotIs(w, c, m.producer.count, k);
  }

  lemma PopSlot<T>(m: Machine<T>, k: nat)
    requires Inv(m) && m.consumer.CopyingOut? && k < m.consumer.count
    ensures m.consumer.count <= |m.data|
    ensures Slot(m.consumer.readIndex, |m.data|, m.consumer.count, k) == (|m.delivered| + k) % |m.data|
  {
    var c, r := |m.data|, |m.delivered|;
    WrappedSlot(r, c);
    SlotIs(m.consumer.readIndex, c, m.consumer.count, k);
    SlotIs(r, c, m.consumer.count, k);
  }

  /** While a push and a pop are both under way, no slot one writes is a slot the other reads. */
  lemma TransfersDisjoint<T>(m: Machine<T>, j: nat, k: nat)
    requires Inv(m) && m.producer.CopyingIn? && m.consumer.CopyingOut? && j < m.producer.count && k < m.consumer.count
    ensures m.producer.count <= |m.data| && m.consumer.count <= |m.data|
    ensures Slot(m.producer.writeIndex, |m.data|, m.producer.count, j) != Slot(m.consumer.readIndex, |m.data|, m.consumer.count, k)
  {
    PushSlotIsFree(m, j, |m.delivered| + k);
    PopSlot(m, k);
  }

  lemma CopyInKeepsInv<T>(m: Machine<T>)
    requires Inv(m) && Enabled(m, CopyIn)
    ensures Inv(Next(m, CopyIn))
  {
    var c, w, r, k := |m.data|, |m.accepted|, |m.delivered|, m.producer.copied;
    PushSlot(m, k);
    var after := Next(m, CopyIn);
    forall i | r <= i < w
      ensures after.data[i % c] == m.accepted[i]
    {
      PushSlotIsFree(m, k, i);
    }
    forall j | 0 <= j < k
      ensures after.data[(w + j) % c] == m.producer.input[j]
    {
      PushSlotIsFree(m, k, w + j);
    }
  }

  /** What a push publishes is in its slots. */
  lemma PublishedIsStored<T>(m: Machine<T>)
    requires Inv(m) && Enabled(m, PublishWrite)
    ensures Next(m, PublishWrite).Machine? && m.accepted <= Next(m, PublishWrite).accepted
    ensures forall i :: |m.delivered| <= i < |Next(m, PublishWrite).accepted| ==>
              m.data[i % |m.data|] == Next(m, PublishWrite).accepted[i]
  {
    var c, w, after := |m.data|, |m.accepted|, Next(m, PublishWrite);
    assert after.accepted[..w] == m.accepted;
    forall i | |m.delivered| <= i < |after.accepted|
      ensures m.data[i % c] == after.accepted[i]
    {
      if i >= w {
        var k := i - w;
        assert m.data[(w + k) % c] == m.producer.input[k];
      }
    }
  }

  lemma PublishWriteKeepsInv<T>(m: Machine<T>)
    requires Inv(m) && Enabled(m, PublishWrite)
    ensures Inv(Next(m, PublishWrite))
  {
    PublishedIsStored(m);
    WrapSum(|m.accepted|, m.producer.count);
    assert ConsumerOk(Next(m, PublishWrite));
  }

  lemma CopyOutKeepsInv<T>(m: Machine<T>)
    requires Inv(m) && Enabled(m, CopyOut)
    ensures Inv(Next(m, CopyOut))
  {
    PopSlot(m, |m.consumer.output|);
  }

  lemma PublishReadKeepsInv<T>(m: Machine<T>)
    requires Inv(m) && Enabled(m, PublishRead)
    ensures Inv(Next(m, PublishRead))
  {
    var r := |m.delivered|;
    var after := Next(m, PublishRead);
    WrapSum(r, m.consumer.count);
    forall i | 0 <= i < |after.delivered|
      ensures after.delivered[i] == m.accepted[i]
    {
      if i >= r {
        var k := i - r;
        assert m.consumer.output[k] == m.accepted[r + k];
      }
    }
    assert ProducerOk(after);
  }

  lemma StepKeepsInv<T>(m: Machine<T>, a: Action<T>)
    requires Inv(m) && Enabled(m, a)
    ensures Inv(Next(m, a))
  {
    match a {
      case MeasureFree => MeasureFreeKeepsInv(m);
      case MeasureFilled => MeasureFilledKeepsInv(m);
      case CopyIn => CopyInKeepsInv(m);
      case PublishWrite => PublishWriteKeepsInv(m);
      case CopyOut => CopyOutKeepsInv(m);
      case PublishRead => PublishReadKeepsInv(m);
      case BeginPush(_) =>
      case BeginPop(_) =>
    }
  }

  function Initial<T>(data: seq<T>): Machine<T> {
    Machine(data, 0, 0, NotPushing, NotPopping, [], [])
  }

  ghost predicate IsRun<T>(states: seq<Machine<T>>, actions: seq<Action<T>>) {
    && |states| == |actions| + 1
    && states[0].Machine? && GoodCapacity(|states[0].data|) && states[0] == Initial(states[0].data)
    && forall i :: 0 <= i < |actions| ==> Enabled(states[i], actions[i]) && states[i + 1] == Next(states[i], actions[i])
  }

  lemma {:induction false} RunKeepsInv<T>(states: seq<Machine<T>>, actions: seq<Action<T>>, i: nat)
    requires IsRun(states, actions) && i <= |actions|
    ensures Inv(states[i]) && |states[i].data| == |states[0].data|
  {
    if i > 0 {
      RunKeepsInv(states, actions, i - 1);
      StepKeepsInv(states[i - 1], actions[i - 1]);
    } else {
      CapacityBound(|states[0].data|);
    }
  }

  /**
   In every interleaving, over any number of wraps: what was handed out is a prefix of what was taken in, and
   the difference of the indices is the number of slots in use, never more than the capacity.
   */
  lemma RefinesBoundedFifo<T>(states: seq<Machine<T>>, actions: seq<Action<T>>, i: nat)
    requires IsRun(states, actions) && i <= |actions|
    ensures states[i].Machine? && states[i].delivered <= states[i].accepted
    ensures (states[i].writeIndex - states[i].readIndex) % WORD == |states[i].accepted| - |states[i].delivered| <= |states[0].data|
  {
    RunKeepsInv(states, actions, i);
    CapacityBound(|states[i].data|);
    WrapDifference(|states[i].accepted|, |states[i].delivered|);
  }

  // ---------------------------------------------------------------- Size in an interleaving

  /** `Size` when it loads the write index in one state and the read index in another. */
  function SizeSeen<T>(atWrite: Machine<T>, atRead: Machine<T>): nat
    requires atWrite.Machine? && atRead.Machine?
  {
    (atWrite.writeIndex - atRead.readIndex) % WORD
  }

  predicate ByProducer<T>(a: Action<T>) {
    a.BeginPush? || a.MeasureFree? || a.CopyIn? || a.PublishWrite?
  }

  /** From state `i` to state `j` one side takes no step, because it is inside `Size`. */
  ghost predicate Pauses<T>(actions: seq<Action<T>>, i: nat, j: nat, producer: bool) {
    i <= j <= |actions| && forall k :: i <= k < j ==> ByProducer(actions[k]) != producer
  }

  lemma {:induction false} PausedSide<T>(states: seq<Machine<T>>, actions: seq<Action<T>>, i: nat, j: nat, producer: bool)
    requires IsRun(states, actions) && Pauses(actions, i, j, producer)
    ensures states[i].Machine? && states[j].Machine?
    ensures producer ==> states[j].accepted == states[i].accepted
    ensures !producer ==> states[j].delivered == states[i].delivered
    decreases j
  {
    RunKeepsInv(states, actions, i);
    RunKeepsInv(states, actions, j);
    if i < j {
      PausedSide(states, actions, i, j - 1, producer);
      RunKeepsInv(states, actions, j - 1);
      assert states[j] == Next(states[j - 1], actions[j - 1]);
    }
  }

  /** The exact outcome of any two loads of one run. */
  lemma SizeSeenIs<T>(states: seq<Machine<T>>, actions: seq<Action<T>>, a: nat, b: nat)
    requires IsRun(states, actions) && a <= |actions| && b <= |actions|
    ensures states[a].Machine? && states[b].Machine?
    ensures SizeSeen(states[a], states[b]) == (|states[a].accepted| - |states[b].delivered|) % WORD
  {
    RunKeepsInv(states, actions, a);
    RunKeepsInv(states, actions, b);
    DifferenceWraps(|states[a].accepted|, |states[b].delivered|);
  }

  lemma DifferenceWraps(w: nat, r: nat)
    ensures (w % WORD - r % WORD) % WORD == (w - r) % WORD
  {
  }

  /**
   When the producer calls `Size`, or the consumer does, then whatever the other side does between the two loads,
   and in whichever order they are made, the result is how much was stored at the load of the other side's index.
   */
  lemma SizeByOwnerIsExact<T>(states: seq<Machine<T>>, actions: seq<Action<T>>, i: nat, j: nat, a: nat, b: nat, producer: bool)
    requires IsRun(states, actions) && Pauses(actions, i, j, producer) && i <= a <= j && i <= b <= j
    ensures states[a].Machine? && states[b].Machine?
    ensures var seen := if producer then states[b] else states[a];
            SizeSeen(states[a], states[b]) == |seen.accepted| - |seen.delivered| <= |states[0].data|
  {
    var s := if producer then b else a;
    PausedSide(states, actions, i, a, producer);
    PausedSide(states, actions, i, b, producer);
    SizeSeenIs(states, actions, a, b);
    RunKeepsInv(states, actions, s);
    CapacityBound(|states[0].data|);
    InOneWord(|states[s].accepted| - |states[s].delivered|);
  }

  lemma InOneWord(n: nat)
    requires n < WORD
    ensures n % WORD == n
  {
  }

  /** With one slot: the states in which one value is pushed and popped. */
  function OneThrough(): seq<Machine<int>> {
    [Machine([0], 0, 0, NotPushing, NotPopping, [], []),
     Machine([0], 0, 0, SawWrite([7], 0), NotPopping, [], []),
     Machine([0], 0, 0, CopyingIn([7], 0, 1, 0), NotPopping, [], []),
     Machine([7], 0, 0, CopyingIn([7], 0, 1, 1), NotPopping, [], []),
     Machine([7], 0, 1, NotPushing, NotPopping, [7], []),
     Machine([7], 0, 1, NotPushing, SawRead(1, 0), [7], []),
     Machine([7], 0, 1, NotPushing, CopyingOut(0, 1, []), [7], []),
     Machine([7], 0, 1, NotPushing, CopyingOut(0, 1, [7]), [7], []),
     Machine([7], 1, 1, NotPushing, NotPopping, [7], [7])]
  }

  function OneThroughActions(): seq<Action<int>> {
    [BeginPush([7]), MeasureFree, CopyIn, PublishWrite, BeginPop(1), MeasureFilled, CopyOut, PublishRead]
  }

  lemma PushesOne(i: nat)
    requires i < 4
    ensures Enabled(OneThrough()[i], OneThroughActions()[i])
    ensures Next(OneThrough()[i], OneThroughActions()[i]) == OneThrough()[i + 1]
  {
    if i == 2 {
      assert [0][0 := 7] == [7];
    } else if i == 3 {
      assert [7][..1] == [7] && [] + [7] == [7];
    }
  }

  lemma PopsOne(i: nat)
    requires 4 <= i < 8
    ensures Enabled(OneThrough()[i], OneThroughActions()[i])
    ensures Next(OneThrough()[i], OneThroughActions()[i]) == OneThrough()[i + 1]
  {
    var nothing: seq<int> := [];
    assert nothing + [7] == [7];
  }

  /** Called by a third thread, it can see the read index of a later moment, and wrap around. */
  lemma SizeByThirdCanWrap()
    ensures IsRun(OneThrough(), OneThroughActions())
    ensures OneThrough()[0].Machine? && OneThrough()[8].Machine? && SizeSeen(OneThrough()[0], OneThrough()[8]) == WORD - 1
  {
    assert Pow2(0) == 1;
    assert GoodCapacity(1);
    forall i | 0 <= i < 8
      ensures Enabled(OneThrough()[i], OneThroughActions()[i])
      ensures OneThrough()[i + 1] == Next(OneThrough()[i], OneThroughActions()[i])
    {
      if i < 4 {
        PushesOne(i);
      } else {
        PopsOne(i);
      }
    }
  }

  // ---------------------------------------------------------------- the class, one call at a time

  /** The array index of the n-th slot ever. */
  function At(n: nat, c: nat): (slot: nat)
    requires c > 0
    ensures slot < c
  {
    n % c
  }

  /** The slots numbered from `first` to before `last`. */
  function Stored<T>(data: seq<T>, first: nat, last: nat): (s: seq<T>)
    requires |data| > 0 && first <= last
    ensures |s| == last - first
    ensures forall i :: 0 <= i < |s| ==> s[i] == data[At(first + i, |data|)]
  {
    seq(last - first, i requires 0 <= i => data[At(first + i, |data|)])
  }

  lemma StoredSplit<T>(data: seq<T>, first: nat, mid: nat, last: nat)
    requires |data| > 0 && first <= mid <= last
    ensures Stored(data, first, last) == Stored(data, first, mid) + Stored(data, mid, last)
  {
  }

  /** The k-th slot of a push lies outside the contents and outside the slots written before. */
  lemma WriteSlot(index: nat, popped: nat, pushed: nat, c: nat, count: nat, k: nat)
    requires GoodCapacity(c) && index == pushed % WORD
    requires k < count <= c && popped <= pushed && pushed + count <= popped + c
    ensures Slot(index, c, count, k) == At(pushed + k, c)
    ensures forall n :: popped <= n < pushed + k ==> At(n, c) != At(pushed + k, c)
  {
    WrappedSlot(pushed, c);
    SlotIs(index, c, count, k);
    SlotIs(pushed, c, count, k);
    forall n | popped <= n < pushed + k
      ensures At(n, c) != At(pushed + k, c)
    {
      NearSlotsDiffer(n, pushed + k, c);
    }
  }

  lemma ReadSlot(index: nat, popped: nat, c: nat, count: nat, k: nat)
    requires GoodCapacity(c) && index == popped % WORD && k < count <= c
    ensures Slot(index, c, count, k) == At(popped + k, c)
  {
    WrappedSlot(popped, c);
    SlotIs(index, c, count, k);
    SlotIs(popped, c, count, k);
  }

  class Buffer<T(0)> {
    const data: array<T>
    var readIndex: nat
    var writeIndex: nat
    /** How many slots were ever popped and pushed. */
    ghost var popped: nat
    ghost var pushed: nat

    ghost predicate Valid()
      reads this
    {
      && GoodCapacity(data.Length) && data.Length > 0
      && popped <= pushed <= popped + data.Length
      && readIndex == popped % WORD && writeIndex == pushed % WORD
    }

    ghost function Contents(): (s: seq<T>)
      reads this, data
      requires Valid()
      ensures |s| == pushed - popped
    {
      Stored(data[..], popped, pushed)
    }

    constructor (capacity: nat)
      requires GoodCapacity(capacity)
      ensures Valid() && fresh(data) && data.Length == capacity && Contents() == []
    {
      CapacityBound(capacity);
      data := new T[capacity];
      readIndex, writeIndex, popped, pushed := 0, 0, 0, 0;
    }

    method Size() returns (used: nat)
      requires Valid()
      ensures used == |Contents()|
    {
      CapacityBound(data.Length);
      WrapDifference(pushed, popped);
      used := (writeIndex - readIndex) % WORD;
    }

    /** Copies the input behind the contents, where nothing is stored. */
    method CopyIn(input: seq<T>, count: nat)
      requires Valid() && count <= |input| && pushed + count <= popped + data.Length
      modifies data
      ensures Stored(data[..], popped, pushed + count) == old(Contents()) + input[..count]
    {
      ghost var before := data[..];
      var k := 0;
      while k < count
        invariant 0 <= k <= count
        invariant forall n :: popped <= n < pushed ==> data[At(n, data.Length)] == before[At(n, data.Length)]
        invariant forall n :: pushed <= n < pushed + k ==> data[At(n, data.Length)] == input[n - pushed]
      {
        WriteSlot(writeIndex, popped, pushed, data.Length, count, k);
        data[Slot(writeIndex, data.Length, count, k)] := input[k];
        k := k + 1;
      }
    }

    method AdvanceWrite(count: nat)
      requires Valid() && pushed + count <= popped + data.Length
      modifies this`writeIndex, this`pushed
      ensures Valid() && pushed == old(pushed) + count
    {
      WrapSum(pushed, count);
      writeIndex := (writeIndex + count) % WORD;
      pushed := pushed + count;
    }

    method Push(input: seq<T>) returns (count: nat)
      requires Valid()
      modifies this`writeIndex, this`pushed, data
      ensures Valid() && count == Min(|input|, data.Length - |old(Contents())|)
      ensures Contents() == old(Contents()) + input[..count]
    {
      CapacityBound(data.Length);
      WrapFree(pushed, popped, data.Length);
      var slotsFree := (data.Length + readIndex - writeIndex) % WORD;
      count := Min(|input|, slotsFree);
      CopyIn(input, count);
      AdvanceWrite(count);
    }

    /** Copies the oldest `count` slots out. */
    method CopyOut(count: nat) returns (output: seq<T>)
      requires Valid() && popped + count <= pushed
      ensures output == Stored(data[..], popped, popped + count)
    {
      output := [];
      while |output| < count
        invariant |output| <= count
        invariant output == Stored(data[..], popped, popped + |output|)
      {
        ReadSlot(readIndex, popped, data.Length, count, |output|);
        output := output + [data[Slot(readIndex, data.Length, count, |output|)]];
      }
    }

    method AdvanceRead(count: nat)
      requires Valid() && popped + count <= pushed
      modifies this`readIndex, this`popped
      ensures Valid() && popped == old(popped) + count
    {
      WrapSum(popped, count);
      readIndex := (readIndex + count) % WORD;
      popped := popped + count;
    }

    method Pop(maxSlots: nat) returns (output: seq<T>)
      requires Valid()
      modifies this`readIndex, this`popped
      ensures Valid()
      ensures output == old(Contents())[..Min(maxSlots, |old(Contents())|)]
      ensures old(Contents()) == output + Contents()
    {
      CapacityBound(data.Length);
      WrapDifference(pushed, popped);
      var slotsFilled := (writeIndex - readIndex) % WORD;
      var count := Min(slotsFilled, maxSlots);
      output := CopyOut(count);
      StoredSplit(data[..], popped, popped + count, pushed);
      AdvanceRead(count);
    }
  }
}
