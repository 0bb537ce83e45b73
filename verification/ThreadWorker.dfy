/**
 `StatefulThreadWorker`: worker threads that take tasks from a shared queue, counters of the work scheduled and
 done, and what it means when `WaitForRequests` returns. Every interleaving of the threads is a run.
 */
module ThreadWorker {

  /** Tasks are numbered in the order in which they are queued. `Executed` has run a task it has not counted yet. */
  datatype Worker = Waiting | Running(task: nat) | Executed(task: nat) | Stopped

  datatype Pool = Pool(workers: seq<Worker>, requests: seq<nat>, workScheduled: nat, workDone: nat, workersStopped: nat,
                       stopRequested: bool, executed: seq<nat>)

  datatype Step =
    | QueueWork
    | Take(worker: nat)
    | Execute(worker: nat)
    | CountDone(worker: nat)
    | RequestStop
    | Stop(worker: nat)

  predicate Enabled(p: Pool, s: Step) {
    match s
    case QueueWork => true
    case Take(w) => w < |p.workers| && p.workers[w].Waiting? && p.requests != []
    case Execute(w) => w < |p.workers| && p.workers[w].Running?
    case CountDone(w) => w < |p.workers| && p.workers[w].Executed?
    case RequestStop => true
    case Stop(w) => w < |p.workers| && p.workers[w].Waiting? && p.stopRequested
  }

  function Next(p: Pool, s: Step): Pool
    requires Enabled(p, s)
  {
    match s
    case QueueWork => p.(requests := p.requests + [p.workScheduled], workScheduled := p.workScheduled + 1)
    case Take(w) => p.(workers := p.workers[w := Running(p.requests[0])], requests := p.requests[1..])
    case Execute(w) =>
      p.(workers := p.workers[w := Executed(p.workers[w].task)], executed := p.executed + [p.workers[w].task])
    case CountDone(w) => p.(workers := p.workers[w := Waiting], workDone := p.workDone + 1)
    case RequestStop => p.(stopRequested := true)
    case Stop(w) => p.(workers := p.workers[w := Stopped], workersStopped := p.workersStopped + 1)
  }

  function Initial(workers: nat): Pool {
    Pool(seq(workers, _ => Waiting), [], 0, 0, 0, false, [])
  }

  ghost predicate IsRun(states: seq<Pool>, steps: seq<Step>) {
    && |states| == |steps| + 1
    && states[0] == Initial(|states[0].workers|)
    && forall i :: 0 <= i < |steps| ==> Enabled(states[i], steps[i]) && states[i + 1] == Next(states[i], steps[i])
  }

  /** The condition `WaitForRequests` waits for. */
  predicate WaitEnds(p: Pool) {
    p.workersStopped >= |p.workers| || p.workDone >= p.workScheduled
  }

  // ---------------------------------------------------------------- counting workers

  datatype Kind = IsRunning | IsExecuted | IsStopped

  predicate Is(w: Worker, kind: Kind) {
    match kind case IsRunning => w.Running? case IsExecuted => w.Executed? case IsStopped => w.Stopped?
  }

  function One(w: Worker, kind: Kind): nat {
    if Is(w, kind) then 1 else 0
  }

  function Count(ws: seq<Worker>, kind: Kind): (n: nat)
    ensures n <= |ws|
  {
    if ws == [] then 0 else Count(ws[..|ws| - 1], kind) + One(ws[|ws| - 1], kind)
  }

  lemma {:induction false} CountUpdate(ws: seq<Worker>, i: nat, w: Worker, kind: Kind)
    requires i < |ws|
    ensures Count(ws[i := w], kind) == Count(ws, kind) - One(ws[i], kind) + One(w, kind)
    decreases |ws|
  {
    var n := |ws| - 1;
    if i == n {
      assert ws[i := w][..n] == ws[..n];
    } else {
      CountUpdate(ws[..n], i, w, kind);
      assert ws[i := w][..n] == ws[..n][i := w];
    }
  }

  lemma {:induction false} CountZero(ws: seq<Worker>, kind: Kind)
    ensures Count(ws, kind) == 0 <==> forall i :: 0 <= i < |ws| ==> !Is(ws[i], kind)
    decreases |ws|
  {
    if ws != [] {
      CountZero(ws[..|ws| - 1], kind);
      assert forall i :: 0 <= i < |ws| - 1 ==> ws[..|ws| - 1][i] == ws[i];
    }
  }

  lemma {:induction false} CountAll(ws: seq<Worker>, kind: Kind)
    requires Count(ws, kind) == |ws|
    ensures forall i :: 0 <= i < |ws| ==> Is(ws[i], kind)
    decreases |ws|
  {
    if ws != [] {
      CountAll(ws[..|ws| - 1], kind);
      assert forall i :: 0 <= i < |ws| - 1 ==> ws[..|ws| - 1][i] == ws[i];
    }
  }

  // ---------------------------------------------------------------- the invariant

  /** The tasks that workers have taken. */
  function Taken(p: Pool): int {
    p.workScheduled - |p.requests|
  }

  ghost predicate RunBy(p: Pool, task: nat) {
    exists w :: 0 <= w < |p.workers| && p.workers[w] == Running(task)
  }

  ghost predicate Inv(p: Pool) {
    && Taken(p) >= 0
    && (forall i :: 0 <= i < |p.requests| ==> p.requests[i] == Taken(p) + i)
    && (forall t: nat :: t < Taken(p) ==> RunBy(p, t) || t in p.executed)
    && (forall w :: 0 <= w < |p.workers| && p.workers[w].Running? ==> p.workers[w].task < Taken(p) && p.workers[w].task !in p.executed)
    && (forall v, w :: 0 <= v < w < |p.workers| && p.workers[v].Running? && p.workers[w].Running? ==> p.workers[v] != p.workers[w])
    && (forall i :: 0 <= i < |p.executed| ==> p.executed[i] < Taken(p))
    && (forall i, j :: 0 <= i < j < |p.executed| ==> p.executed[i] != p.executed[j])
  }

  /** Conservation: scheduled is queued plus running plus executed but not counted plus done. */
  ghost predicate Counts(p: Pool) {
    && p.workScheduled == |p.requests| + Count(p.workers, IsRunning) + |p.executed|
    && |p.executed| == Count(p.workers, IsExecuted) + p.workDone
    && p.workersStopped == Count(p.workers, IsStopped)
    && (p.workersStopped > 0 ==> p.stopRequested)
  }

  lemma StepKeepsCounts(p: Pool, s: Step)
    requires Counts(p) && Enabled(p, s)
    ensures Counts(Next(p, s))
  {
    if s.Take? || s.Execute? || s.CountDone? || s.Stop? {
      CountUpdate(p.workers, s.worker, Next(p, s).workers[s.worker], IsRunning);
      CountUpdate(p.workers, s.worker, Next(p, s).workers[s.worker], IsExecuted);
      CountUpdate(p.workers, s.worker, Next(p, s).workers[s.worker], IsStopped);
    }
  }

  lemma StepKeepsRunBy(p: Pool, s: Step, t: nat)
    requires Enabled(p, s) && RunBy(p, t)
    ensures RunBy(Next(p, s), t) || (s.Execute? && p.workers[s.worker].task == t)
  {
    var w :| 0 <= w < |p.workers| && p.workers[w] == Running(t);
    assert Next(p, s).workers[w] == Running(t) || (s.Execute? && s.worker == w);
  }

  lemma StepKeepsInv(p: Pool, s: Step)
    requires Inv(p) && Enabled(p, s)
    ensures Inv(Next(p, s))
  {
    var q := Next(p, s);
    forall t: nat | t < Taken(q)
      ensures RunBy(q, t) || t in q.executed
    {
      if t < Taken(p) {
        if RunBy(p, t) {
          StepKeepsRunBy(p, s, t);
        }
      } else {
        assert q.workers[s.worker] == Running(t);
      }
    }
  }

  lemma {:induction false} RunKeepsInv(states: seq<Pool>, steps: seq<Step>, i: nat)
    requires IsRun(states, steps) && i <= |steps|
    ensures Inv(states[i]) && Counts(states[i]) && |states[i].workers| == |states[0].workers|
  {
    if i > 0 {
      RunKeepsInv(states, steps, i - 1);
      StepKeepsInv(states[i - 1], steps[i - 1]);
      StepKeepsCounts(states[i - 1], steps[i - 1]);
    } else {
      InitialInv(|states[0].workers|);
    }
  }

  lemma InitialInv(workers: nat)
    ensures Inv(Initial(workers)) && Counts(Initial(workers))
  {
    CountZero(Initial(workers).workers, IsRunning);
    CountZero(Initial(workers).workers, IsExecuted);
    CountZero(Initial(workers).workers, IsStopped);
  }

  /** In every reachable state each task is queued, running or executed, and no task is executed twice. */
  lemma EveryTaskOnce(states: seq<Pool>, steps: seq<Step>, i: nat, task: nat)
    requires IsRun(states, steps) && i <= |steps| && task < states[i].workScheduled
    ensures task in states[i].requests || RunBy(states[i], task) || task in states[i].executed
    ensures forall j, k :: 0 <= j < k < |states[i].executed| ==> states[i].executed[j] != states[i].executed[k]
  {
    RunKeepsInv(states, steps, i);
    var p := states[i];
    if task >= Taken(p) {
      assert p.requests[task - Taken(p)] == task;
    }
  }

  /**
   When the wait ends, nothing is running. Every task scheduled has then been executed if and only if none is
   left in the queue. Some can only be left when all workers have stopped, and so were asked to or never existed.
   */
  lemma WaitMeans(states: seq<Pool>, steps: seq<Step>, i: nat)
    requires IsRun(states, steps) && i <= |steps| && WaitEnds(states[i])
    ensures forall t: nat :: !RunBy(states[i], t)
    ensures (forall t: nat :: t < states[i].workScheduled ==> t in states[i].executed) <==> states[i].requests == []
    ensures states[i].requests != [] ==> states[i].workersStopped == |states[i].workers|
    ensures states[i].requests != [] ==> states[i].stopRequested || states[i].workers == []
  {
    RunKeepsInv(states, steps, i);
    var p := states[i];
    CountZero(p.workers, IsRunning);
    if p.workDone < p.workScheduled {
      CountAll(p.workers, IsStopped);
    }
    if p.requests != [] {
      assert p.requests[0] == Taken(p);
      assert Taken(p) !in p.executed;
    }
  }

  /** That happens: one worker is asked to stop before it has taken the task that is queued. */
  lemma WaitCanLeaveTasks()
    ensures exists states: seq<Pool>, steps: seq<Step> ::
              IsRun(states, steps) && WaitEnds(states[|steps|]) && states[|steps|].requests == [0] && states[|steps|].executed == []
  {
    var start := Initial(1);
    var queued := Next(start, QueueWork);
    var asked := Next(queued, RequestStop);
    var stopped := Next(asked, Stop(0));
    var states, steps := [start, queued, asked, stopped], [QueueWork, RequestStop, Stop(0)];
    assert IsRun(states, steps);
    assert states[|steps|] == stopped && stopped.requests == [0];
  }

  /** With workers and without a request to stop, the wait ends only when everything scheduled has been executed. */
  lemma WaitWithoutStop(states: seq<Pool>, steps: seq<Step>, i: nat)
    requires IsRun(states, steps) && i <= |steps| && WaitEnds(states[i])
    requires !states[i].stopRequested && |states[i].workers| > 0
    ensures states[i].requests == [] && states[i].workDone == states[i].workScheduled
    ensures forall t: nat :: t < states[i].workScheduled ==> t in states[i].executed
  {
    WaitMeans(states, steps, i);
    RunKeepsInv(states, steps, i);
  }

  /** Without workers the wait ends at once, whatever is queued. */
  lemma {:induction false} NobodyToWaitFor(states: seq<Pool>, steps: seq<Step>, i: nat)
    requires IsRun(states, steps) && i <= |steps| && states[0].workers == []
    ensures WaitEnds(states[i]) && |states[i].requests| == states[i].workScheduled && states[i].executed == []
  {
    RunKeepsInv(states, steps, i);
    if i > 0 {
      RunKeepsInv(states, steps, i - 1);
      NobodyToWaitFor(states, steps, i - 1);
    }
  }
}
