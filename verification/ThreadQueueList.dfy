/**
 `ThreadQueueList`: one queue per priority level, and a linked list through the levels that have ever been
 prepared, kept in ascending order. Smaller numbers are better priorities.
 */
module ThreadQueueList {
  import opened Common

  /** A `Queue*`: the special tag for unprepared levels, null, or a level. */
  datatype Link = Unlinked | Null | To(level: nat)

  // ---------------------------------------------------------------- the list through the levels

  predicate Prepared(links: seq<Link>, i: nat) {
    i < |links| && !links[i].Unlinked?
  }

  /** `l` is the smallest prepared level from `from` on, or null if there is none. */
  ghost predicate IsNextPrepared(links: seq<Link>, from: nat, l: Link) {
    match l
    case Unlinked => false
    case Null => forall j :: from <= j < |links| ==> !Prepared(links, j)
    case To(level) => from <= level && Prepared(links, level) && forall j :: from <= j < level ==> !Prepared(links, j)
  }

  /** The list starts at the best prepared level and leads from each prepared level to the next one. */
  ghost predicate Threaded(links: seq<Link>, first: Link) {
    && IsNextPrepared(links, 0, first)
    && forall i :: 0 <= i < |links| ==> LeadsOn(links, i)
  }

  ghost predicate LeadsOn(links: seq<Link>, i: nat) {
    Prepared(links, i) ==> IsNextPrepared(links, i + 1, links[i])
  }

  /** The levels met when following the links. */
  function Walk(links: seq<Link>, l: Link, fuel: nat): seq<nat>
    decreases fuel
  {
    if fuel == 0 || !l.To? || l.level >= |links| then [] else [l.level] + Walk(links, links[l.level], fuel - 1)
  }

  /** `levels` are the prepared levels from `from` on, in ascending order. */
  ghost predicate ListsPrepared(links: seq<Link>, from: nat, levels: seq<nat>) {
    && (forall i :: 0 <= i < |levels| ==> from <= levels[i] && Prepared(links, levels[i]))
    && (forall i, j :: 0 <= i < j < |levels| ==> levels[i] < levels[j])
    && (forall p :: from <= p && Prepared(links, p) ==> p in levels)
  }

  lemma ListsPreparedCons(links: seq<Link>, from: nat, level: nat, rest: seq<nat>)
    requires IsNextPrepared(links, from, To(level)) && ListsPrepared(links, level + 1, rest)
    ensures ListsPrepared(links, from, [level] + rest)
  {
    var levels := [level] + rest;
    forall p | from <= p && Prepared(links, p)
      ensures p in levels
    {
      assert p > level ==> p in rest;
      assert levels[0] == level;
    }
  }

  lemma NextFollows(links: seq<Link>, first: Link, from: nat, level: nat)
    requires Threaded(links, first) && IsNextPrepared(links, from, To(level))
    ensures from <= level < |links| && IsNextPrepared(links, level + 1, links[level])
  {
    assert LeadsOn(links, level);
  }

  /** Following the links from any point visits exactly the prepared levels from there on, in ascending order. */
  lemma {:induction false} WalkVisitsPrepared(links: seq<Link>, first: Link, l: Link, from: nat, fuel: nat)
    requires Threaded(links, first) && from <= |links| && IsNextPrepared(links, from, l) && fuel >= |links| - from
    ensures ListsPrepared(links, from, Walk(links, l, fuel))
    decreases fuel
  {
    if l.To? {
      NextFollows(links, first, from, l.level);
      WalkVisitsPrepared(links, first, links[l.level], l.level + 1, fuel - 1);
      ListsPreparedCons(links, from, l.level, Walk(links, links[l.level], fuel - 1));
    }
  }

  /** The links after `link(priority)`. */
  ghost predicate IsLinked(before: seq<Link>, first: Link, after: seq<Link>, first': Link, priority: nat) {
    && |after| == |before| && priority < |before|
    && Threaded(after, first')
    && forall i :: 0 <= i < |before| ==> (Prepared(after, i) <==> Prepared(before, i) || i == priority)
  }

  lemma LinkAfter(links: seq<Link>, first: Link, i: nat, priority: nat)
    requires Threaded(links, first) && i < priority < |links| && Prepared(links, i) && !Prepared(links, priority)
    requires forall j :: i < j < priority ==> !Prepared(links, j)
    ensures IsLinked(links, first, links[priority := links[i]][i := To(priority)], first, priority)
  {
    var after := links[priority := links[i]][i := To(priority)];
    assert LeadsOn(links, i);
    forall k | 0 <= k < |after|
      ensures Prepared(after, k) <==> Prepared(links, k) || k == priority
    {
    }
    forall k | 0 <= k < |after|
      ensures LeadsOn(after, k)
    {
      assert LeadsOn(links, k);
    }
  }

  lemma LinkFirst(links: seq<Link>, first: Link, priority: nat)
    requires Threaded(links, first) && priority < |links| && !Prepared(links, priority)
    requires forall j :: 0 <= j < priority ==> !Prepared(links, j)
    ensures IsLinked(links, first, links[priority := first], To(priority), priority)
  {
    var after := links[priority := first];
    forall k | 0 <= k < |after|
      ensures Prepared(after, k) <==> Prepared(links, k) || k == priority
    {
    }
    forall k | 0 <= k < |after|
      ensures LeadsOn(after, k)
    {
      assert LeadsOn(links, k);
    }
  }

  // ---------------------------------------------------------------- what the queues hold

  /** The best prepared level below `limit` that has something waiting. */
  ghost predicate IsBest<T>(links: seq<Link>, queues: seq<seq<T>>, limit: nat, level: nat)
    requires |queues| == |links|
  {
    && level < limit && Prepared(links, level) && queues[level] != []
    && forall j :: 0 <= j < level && Prepared(links, j) ==> queues[j] == []
  }

  ghost predicate NothingBelow<T>(links: seq<Link>, queues: seq<seq<T>>, limit: nat)
    requires |queues| == |links|
  {
    forall j :: 0 <= j < limit && Prepared(links, j) ==> queues[j] == []
  }

  /** Result of taking the oldest item of the best level below `limit`: it leaves the front of its queue. */
  ghost predicate TakesBest<T>(links: seq<Link>, before: seq<seq<T>>, limit: nat, default: T, r: T, after: seq<seq<T>>)
    requires |before| == |links|
  {
    || (NothingBelow(links, before, limit) && r == default && after == before)
    || exists level: nat :: IsBest(links, before, limit, level) && r == before[level][0] && after == before[level := before[level][1..]]
  }

  /** `std::remove` and `erase`: every occurrence goes, the others keep their order. */
  function Without<T(==)>(s: seq<T>, x: T): seq<T> {
    if s == [] then [] else Without(s[..|s| - 1], x) + if s[|s| - 1] == x then [] else [s[|s| - 1]]
  }

  lemma {:induction false} WithoutConcat<T>(a: seq<T>, b: seq<T>, x: T)
    ensures Without(a + b, x) == Without(a, x) + Without(b, x)
    decreases |b|
  {
    if b == [] {
      assert a + b == a;
    } else {
      assert (a + b)[..|a + b| - 1] == a + b[..|b| - 1];
      WithoutConcat(a, b[..|b| - 1], x);
    }
  }

  lemma {:induction false} WithoutNothing<T>(a: seq<T>, x: T)
    requires x !in a
    ensures Without(a, x) == a
    decreases |a|
  {
    if a != [] {
      WithoutNothing(a[..|a| - 1], x);
    }
  }

  /** The items before an occurrence stay as they are, the occurrence goes, and so on behind it. */
  lemma WithoutSplits<T>(a: seq<T>, x: T, b: seq<T>)
    requires x !in a
    ensures Without(a, x) == a && Without(a + [x] + b, x) == a + Without(b, x)
  {
    WithoutNothing(a, x);
    WithoutConcat(a + [x], b, x);
    WithoutConcat(a, [x], x);
  }

  /** With items pushed to prepared levels only, nothing waits out of sight. */
  ghost predicate AllVisible<T>(links: seq<Link>, queues: seq<seq<T>>)
    requires |queues| == |links|
  {
    forall j :: 0 <= j < |queues| && queues[j] != [] ==> Prepared(links, j)
  }

  /** That goes on as long as every level that gets items has been prepared. */
  lemma UpdateKeepsVisibleIff<T>(links: seq<Link>, queues: seq<seq<T>>, level: nat, items: seq<T>)
    requires |queues| == |links| && AllVisible(links, queues) && level < |links|
    ensures AllVisible(links, queues[level := items]) <==> items == [] || Prepared(links, level)
  {
    var after := queues[level := items];
    assert forall j :: 0 <= j < |after| && j != level ==> after[j] == queues[j];
    assert after[level] == items;
  }

  lemma TakingKeepsVisible<T>(links: seq<Link>, before: seq<seq<T>>, limit: nat, default: T, r: T, after: seq<seq<T>>)
    requires |before| == |links| && AllVisible(links, before) && TakesBest(links, before, limit, default, r, after)
    ensures |after| == |links| && AllVisible(links, after)
  {
  }

  /** The best level is then the best of all. */
  lemma BestOfAll<T>(links: seq<Link>, queues: seq<seq<T>>, limit: nat, level: nat)
    requires |queues| == |links| && AllVisible(links, queues) && limit <= |links|
    ensures IsBest(links, queues, limit, level) <==> level < limit && queues[level] != [] && forall j :: 0 <= j < level ==> queues[j] == []
    ensures NothingBelow(links, queues, limit) <==> forall j :: 0 <= j < limit ==> queues[j] == []
  {
  }

  /**
   `pop_first_better(priority)` runs until it meets an item or a pointer that is not below that level. Null
   compares below everything, so it is safe exactly if it finds an item first or a prepared level stops it.
   */
  ghost predicate Stops<T>(links: seq<Link>, queues: seq<seq<T>>, priority: nat)
    requires |queues| == |links|
  {
    (exists j :: priority <= j < |links| && Prepared(links, j)) || !NothingBelow(links, queues, priority)
  }

  /** One pass of that loop: whether the pointer is dereferenced as null. */
  ghost predicate ReachesNull<T>(links: seq<Link>, queues: seq<seq<T>>, l: Link, priority: nat, fuel: nat)
    requires |queues| == |links|
    decreases fuel
  {
    match l
    case Null => true
    case Unlinked => false
    case To(level) =>
      level < priority && level < |links| && queues[level] == [] && fuel > 0 && ReachesNull(links, queues, links[level], priority, fuel - 1)
  }

  lemma {:induction false} ReachesNullIff<T>(links: seq<Link>, queues: seq<seq<T>>, first: Link, l: Link, from: nat, priority: nat, fuel: nat)
    requires |queues| == |links| && Threaded(links, first) && IsNextPrepared(links, from, l)
    requires from <= |links| && fuel >= |links| - from
    requires forall j :: 0 <= j < from && j < priority && Prepared(links, j) ==> queues[j] == []
    requires from == 0 || from <= priority
    ensures ReachesNull(links, queues, l, priority, fuel) <==> !Stops(links, queues, priority)
    decreases fuel
  {
    if l.To? {
      if l.level < priority && queues[l.level] == [] {
        NextFollows(links, first, from, l.level);
        ReachesNullIff(links, queues, first, links[l.level], l.level + 1, priority, fuel - 1);
      } else if l.level < priority {
        assert Prepared(links, l.level);
      }
    } else {
      assert forall j :: from <= j < |links| ==> !Prepared(links, j);
    }
  }

  /** The exact condition for the loop to be safe, for any level, prepared or not. */
  lemma PopFirstBetterSafeIff<T>(links: seq<Link>, queues: seq<seq<T>>, first: Link, priority: nat)
    requires |queues| == |links| && Threaded(links, first)
    ensures ReachesNull(links, queues, first, priority, |links|) <==> !Stops(links, queues, priority)
  {
    ReachesNullIff(links, queues, first, first, 0, priority, |links|);
  }

  /** For example, before any level has been prepared. */
  lemma NullIsReached()
    ensures Threaded([Unlinked, Unlinked], Null) && ReachesNull<int>([Unlinked, Unlinked], [[], []], Null, 1, 2)
  {
  }

  // ---------------------------------------------------------------- saving

  function ToIndex(l: Link): int {
    match l case Null => -2 case Unlinked => -1 case To(level) => level
  }

  function ToPointer(idx: int): Link {
    if idx == -1 then Unlinked else if idx < 0 then Null else To(idx)
  }

  /** The level, or minus one for an unprepared level, or minus two for null. */
  predicate IsIndexOf(idx: int, l: Link) {
    (l.To? && idx == l.level) || (l.Unlinked? && idx == -1) || (l.Null? && idx == -2)
  }

  datatype Archive<T> = Archive(first: int, links: seq<int>, queues: seq<seq<T>>)

  // ---------------------------------------------------------------- the class

  class ThreadQueueList<T(==, 0)> {
    const links: array<Link>
    const queues: array<seq<T>>
    var first: Link

    ghost predicate Valid()
      reads this, links, queues
    {
      links.Length == queues.Length && Threaded(links[..], first)
    }

    /** Nothing waits at a level that was never prepared. Every method keeps it, pushes to prepared levels only. */
    ghost predicate Visible()
      requires Valid()
      reads this, links, queues
    {
      AllVisible(links[..], queues[..])
    }

    constructor (levels: nat)
      ensures Valid() && Visible() && links.Length == levels && fresh(links) && fresh(queues)
      ensures forall i :: 0 <= i < levels ==> !Prepared(links[..], i) && queues[i] == []
    {
      links := new Link[levels](_ => Unlinked);
      queues := new seq<T>[levels](_ => []);
      first := Null;
    }

    /** Prepares an unprepared level. */
    method LinkLevel(priority: nat)
      requires Valid() && priority < links.Length && !Prepared(links[..], priority)
      modifies this, links
      ensures Valid() && IsLinked(old(links[..]), old(first), links[..], first, priority)
    {
      var i: int := priority - 1;
      while i >= 0
        invariant -1 <= i < priority
        invariant links[..] == old(links[..]) && first == old(first)
        invariant forall j :: i < j < priority ==> !Prepared(links[..], j)
      {
        if links[i] != Unlinked {
          LinkAfter(links[..], first, i, priority);
          links[priority] := links[i];
          links[i] := To(priority);
          return;
        }
        i := i - 1;
      }
      LinkFirst(links[..], first, priority);
      links[priority] := first;
      first := To(priority);
    }

    method Prepare(priority: nat)
      requires Valid() && priority < links.Length
      modifies this, links
      ensures Valid()
      ensures forall i :: 0 <= i < links.Length ==> (Prepared(links[..], i) <==> Prepared(old(links[..]), i) || i == priority)
      ensures old(Visible()) ==> Visible()
    {
      if links[priority] == Unlinked {
        LinkLevel(priority);
      }
    }

    /** The first prepared level below `limit` with an item, as the loops over the list find it. */
    method FindBest(limit: nat) returns (found: Option<nat>)
      requires Valid() && (limit < links.Length ==> Stops(links[..], queues[..], limit)) && limit <= links.Length
      ensures found.None? ==> NothingBelow(links[..], queues[..], limit)
      ensures found.Some? ==> IsBest(links[..], queues[..], limit, found.value)
    {
      var cur := first;
      ghost var from: nat := 0;
      while cur.To? && cur.level < limit
        invariant from <= links.Length && IsNextPrepared(links[..], from, cur)
        invariant forall j :: 0 <= j < from && Prepared(links[..], j) ==> queues[j] == []
        decreases links.Length - from
      {
        if queues[cur.level] != [] {
          return Some(cur.level);
        }
        NextFollows(links[..], first, from, cur.level);
        from := cur.level + 1;
        cur := links[cur.level];
      }
      return None;
    }

    method GetFirst(default: T) returns (r: T)
      requires Valid()
      ensures NothingBelow(links[..], queues[..], links.Length) ==> r == default
      ensures !NothingBelow(links[..], queues[..], links.Length) ==>
                exists level: nat :: IsBest(links[..], queues[..], links.Length, level) && r == queues[level][0]
      ensures Visible() && (exists j :: 0 <= j < links.Length && queues[j] != []) ==>
                exists level: nat :: level < links.Length && queues[level] != [] && r == queues[level][0] &&
                                     forall j :: 0 <= j < level ==> queues[j] == []
    {
      var best := FindBest(links.Length);
      r := if best.Some? then queues[best.value][0] else default;
    }

    /** Takes the front of the queue at `best`. */
    method TakeFrom(best: Option<nat>, default: T, ghost limit: nat) returns (r: T)
      requires Valid() && limit <= links.Length
      requires best.None? ==> NothingBelow(links[..], queues[..], limit)
      requires best.Some? ==> IsBest(links[..], queues[..], limit, best.value)
      modifies queues
      ensures Valid() && TakesBest(links[..], old(queues[..]), limit, default, r, queues[..])
      ensures old(Visible()) ==> Visible()
    {
      r := default;
      if best.Some? {
        r := queues[best.value][0];
        queues[best.value] := queues[best.value][1..];
      }
    }

    method PopFirst(default: T) returns (r: T)
      requires Valid()
      modifies queues
      ensures Valid() && TakesBest(links[..], old(queues[..]), links.Length, default, r, queues[..])
      ensures old(Visible()) ==> Visible()
    {
      var best := FindBest(links.Length);
      r := TakeFrom(best, default, links.Length);
    }

    method PopFirstBetter(priority: nat, default: T) returns (r: T)
      requires Valid() && priority < links.Length && Stops(links[..], queues[..], priority)
      modifies queues
      ensures Valid() && TakesBest(links[..], old(queues[..]), priority, default, r, queues[..])
      ensures old(Visible()) ==> Visible()
    {
      var best := FindBest(priority);
      r := TakeFrom(best, default, priority);
    }

    method PushFront(priority: nat, item: T)
      requires Valid() && priority < links.Length
      modifies queues
      ensures Valid() && queues[..] == old(queues[..])[priority := [item] + old(queues[priority])]
      ensures old(Visible()) ==> (Visible() <==> Prepared(links[..], priority))
    {
      queues[priority] := [item] + queues[priority];
    }

    method PushBack(priority: nat, item: T)
      requires Valid() && priority < links.Length
      modifies queues
      ensures Valid() && queues[..] == old(queues[..])[priority := old(queues[priority]) + [item]]
      ensures old(Visible()) ==> (Visible() <==> Prepared(links[..], priority))
    {
      queues[priority] := queues[priority] + [item];
    }

    method Remove(priority: nat, item: T)
      requires Valid() && priority < links.Length
      modifies queues
      ensures Valid() && queues[..] == old(queues[..])[priority := Without(old(queues[priority]), item)]
      ensures old(Visible()) ==> Visible()
    {
      var kept: seq<T>, i := [], 0;
      while i < |queues[priority]|
        invariant 0 <= i <= |queues[priority]|
        invariant queues[..] == old(queues[..])
        invariant kept == Without(queues[priority][..i], item)
      {
        assert queues[priority][..i + 1][..i] == queues[priority][..i];
        if queues[priority][i] != item {
          kept := kept + [queues[priority][i]];
        }
        i := i + 1;
      }
      assert queues[priority][..i] == queues[priority];
      queues[priority] := kept;
    }

    method Move(item: T, oldPriority: nat, newPriority: nat)
      requires Valid() && oldPriority < links.Length && newPriority < links.Length
      modifies this, links, queues
      ensures Valid()
      ensures forall i :: 0 <= i < links.Length ==> (Prepared(links[..], i) <==> Prepared(old(links[..]), i) || i == newPriority)
      ensures var removed := old(queues[..])[oldPriority := Without(old(queues[oldPriority]), item)];
              queues[..] == removed[newPriority := removed[newPriority] + [item]]
      ensures old(Visible()) ==> Visible()
    {
      Remove(oldPriority, item);
      Prepare(newPriority);
      PushBack(newPriority, item);
    }

    method Rotate(priority: nat)
      requires Valid() && priority < links.Length
      modifies queues
      ensures Valid()
      ensures queues[..] == old(queues[..])[priority := if old(queues[priority]) == [] then []
                                                        else old(queues[priority])[1..] + [old(queues[priority])[0]]]
      ensures old(Visible()) ==> Visible()
    {
      if |queues[priority]| > 1 {
        queues[priority] := queues[priority][1..] + [queues[priority][0]];
      }
      assert old(queues[priority]) != [] && |old(queues[priority])| <= 1 ==>
        old(queues[priority])[1..] + [old(queues[priority])[0]] == old(queues[priority]);
    }

    method Save() returns (ar: Archive<T>)
      requires Valid()
      ensures |ar.links| == |ar.queues| == links.Length
      ensures IsIndexOf(ar.first, first) && ar.queues == queues[..]
      ensures forall i :: 0 <= i < links.Length ==> IsIndexOf(ar.links[i], links[i])
    {
      var saved: seq<int> := [];
      var i := 0;
      while i < links.Length
        invariant 0 <= i <= links.Length && |saved| == i
        invariant forall j :: 0 <= j < i ==> IsIndexOf(saved[j], links[j])
      {
        saved := saved + [ToIndex(links[i])];
        i := i + 1;
      }
      ar := Archive(ToIndex(first), saved, queues[..]);
    }

    method Load(ar: Archive<T>)
      requires |ar.links| == |ar.queues| == links.Length == queues.Length
      modifies this, links, queues
      ensures first == ToPointer(ar.first) && queues[..] == ar.queues
      ensures forall i :: 0 <= i < links.Length ==> links[i] == ToPointer(ar.links[i])
    {
      first := ToPointer(ar.first);
      var i := 0;
      while i < links.Length
        invariant 0 <= i <= links.Length && first == ToPointer(ar.first)
        invariant forall j :: 0 <= j < i ==> links[j] == ToPointer(ar.links[j]) && queues[j] == ar.queues[j]
      {
        links[i] := ToPointer(ar.links[i]);
        queues[i] := ar.queues[i];
        i := i + 1;
      }
    }
  }

  /** Loading what was saved restores the list, whatever the target held before. */
  method SaveThenLoad<T(==, 0)>(a: ThreadQueueList<T>, b: ThreadQueueList<T>)
    requires a.Valid() && b.links != a.links && b.queues != a.queues && b != a
    requires b.links.Length == b.queues.Length == a.links.Length
    modifies b, b.links, b.queues
    ensures b.Valid() && b.first == a.first && b.links[..] == a.links[..] && b.queues[..] == a.queues[..]
  {
    var ar := a.Save();
    b.Load(ar);
    assert b.links[..] == a.links[..];
  }
}
