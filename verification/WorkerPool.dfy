/** `runPoolBuffered`: a fixed set of workers share one counter and write their results by step index
    (bin/kumiko-legacy.ts). A machine step is what one worker does between two awaits. */
module WorkerPool {
  import opened Numbers
  import opened Wrappers

  datatype Step = Step(name: string, cmd: string)

  datatype Result = Result(name: string, ok: bool, exitCode: int)

  datatype Worker = Running(idx: nat) | Stopped

  datatype State = State(
    results: seq<Option<Result>>,
    next: nat,
    workers: seq<Worker>,
    started: seq<nat>)  // history: the steps spawned, in order

  /** What is fixed for one call: the steps, and the exit code each one's process will have. */
  datatype Job = Job(steps: seq<Step>, codes: seq<int>)

  predicate IsJob(j: Job) {
    |j.codes| == |j.steps|
  }

  /** The pool size comes from `Number` on an environment variable: it may be any number. */
  predicate HasWorkers(poolSize: Num) {
    match poolSize
    case At(v) => v >= 1.0
    case Infinite(negative) => !negative
    case NaN => false
  }

  /** `Array.from({ length: Math.min(poolSize, steps.length) })`: the length is truncated, negative ones
      and NaN count as 0. */
  function WorkerCount(j: Job, poolSize: Num): (k: nat)
    ensures k <= |j.steps| && (k >= 1 <==> HasWorkers(poolSize) && j.steps != [])
  {
    match poolSize
    case At(v) => if v < 0.0 then 0 else if v < |j.steps| as real then v.Floor else |j.steps|
    case Infinite(negative) => if negative then 0 else |j.steps|
    case NaN => 0
  }

  function Outcome(j: Job, i: nat): Result
    requires IsJob(j) && i < |j.steps|
  {
    Result(j.steps[i].name, j.codes[i] == 0, j.codes[i])
  }

  /** `const idx = next++` and what the worker does with it. */
  function Fetch(j: Job, s: State, w: nat): State
    requires w < |s.workers|
  {
    var t := s.(next := s.next + 1);
    if s.next >= |j.steps| then t.(workers := s.workers[w := Stopped])
    else t.(workers := s.workers[w := Running(s.next)], started := s.started + [s.next])
  }

  predicate Enabled(j: Job, s: State, w: nat) {
    IsJob(j) && |s.results| == |j.steps|
    && w < |s.workers| && s.workers[w].Running? && s.workers[w].idx < |j.steps|
  }

  /** The process of worker `w` exits: its result is stored and the next step fetched. */
  function Complete(j: Job, s: State, w: nat): State
    requires Enabled(j, s, w)
  {
    var i := s.workers[w].idx;
    Fetch(j, s.(results := s.results[i := Some(Outcome(j, i))]), w)
  }

  /** The state once all workers have made their first fetch. */
  function Initial(j: Job, poolSize: Num): State {
    var k := WorkerCount(j, poolSize);
    State(seq(|j.steps|, _ => None), k, seq(k, (i: nat) => Running(i)), seq(k, (i: nat) => i))
  }

  // ---------------------------------------------------------------- what every state keeps

  predicate Runs(s: State, i: nat) {
    Running(i) in s.workers
  }

  function StoppedCount(workers: seq<Worker>): nat {
    if workers == [] then 0
    else (if workers[|workers| - 1].Stopped? then 1 else 0) + StoppedCount(workers[..|workers| - 1])
  }

  lemma {:induction false} StoppedUpdate(workers: seq<Worker>, w: nat, v: Worker)
    requires w < |workers| && workers[w].Running?
    ensures StoppedCount(workers[w := v]) == StoppedCount(workers) + (if v.Stopped? then 1 else 0)
  {
    var last := |workers| - 1;
    if w == last {
      assert workers[w := v][..last] == workers[..last];
    } else {
      assert workers[w := v][..last] == workers[..last][w := v];
      StoppedUpdate(workers[..last], w, v);
    }
  }

  lemma {:induction false} StoppedBounds(workers: seq<Worker>)
    ensures StoppedCount(workers) <= |workers|
    ensures StoppedCount(workers) == |workers| <==> forall w :: 0 <= w < |workers| ==> workers[w].Stopped?
    ensures StoppedCount(workers) == 0 <==> forall w :: 0 <= w < |workers| ==> workers[w].Running?
  {
    if workers != [] {
      var rest := workers[..|workers| - 1];
      StoppedBounds(rest);
      assert forall w :: 0 <= w < |rest| ==> rest[w] == workers[w];
    }
  }

  ghost predicate Inv(j: Job, s: State) {
    && IsJob(j) && |s.results| == |j.steps|
    && s.started == seq(Min(s.next, |j.steps|), (i: nat) => i)
    && StoppedCount(s.workers) == s.next - Min(s.next, |j.steps|)
    && (forall w :: 0 <= w < |s.workers| && s.workers[w].Running? ==> s.workers[w].idx < Min(s.next, |j.steps|))
    && (forall v, w :: 0 <= v < w < |s.workers| && s.workers[v].Running? ==> s.workers[v] != s.workers[w])
    && (forall i :: 0 <= i < |j.steps| ==>
          s.results[i] == if i < s.next && !Runs(s, i) then Some(Outcome(j, i)) else None)
  }

  function Min(a: nat, b: nat): nat {
    if a < b then a else b
  }

  lemma InitialInv(j: Job, poolSize: Num)
    requires IsJob(j)
    ensures Inv(j, Initial(j, poolSize))
  {
    var s := Initial(j, poolSize);
    StoppedBounds(s.workers);
    forall i | 0 <= i < s.next ensures Runs(s, i) {
      assert s.workers[i] == Running(i);
    }
  }

  lemma InvKept(j: Job, s: State, w: nat)
    requires Inv(j, s) && Enabled(j, s, w)
    ensures Inv(j, Complete(j, s, w))
  {
    var t := Complete(j, s, w);
    var i := s.workers[w].idx;
    StoppedUpdate(s.workers, w, t.workers[w]);
    forall k | 0 <= k < |j.steps|
      ensures t.results[k] == if k < t.next && !Runs(t, k) then Some(Outcome(j, k)) else None
    {
      RunsAfter(j, s, w, k);
    }
  }

  lemma RunsAfter(j: Job, s: State, w: nat, k: nat)
    requires Inv(j, s) && Enabled(j, s, w) && k < |j.steps|
    ensures Runs(Complete(j, s, w), k) <==> (Runs(s, k) && k != s.workers[w].idx) || k == s.next
  {
    hide StoppedCount;
    var t := Complete(j, s, w);
    if Runs(t, k) {
      var v :| 0 <= v < |t.workers| && t.workers[v] == Running(k);
      assert v != w ==> s.workers[v] == Running(k);
    }
    if Runs(s, k) && k != s.workers[w].idx {
      var v :| 0 <= v < |s.workers| && s.workers[v] == Running(k);
      assert t.workers[v] == Running(k);
    }
    if k == s.next {
      assert t.workers[w] == Running(k);
    }
  }

  // ---------------------------------------------------------------- whole runs

  /** A completion order: in each state one of the running workers finishes. */
  ghost predicate IsRun(j: Job, poolSize: Num, states: seq<State>, order: seq<nat>) {
    && IsJob(j)
    && |states| == |order| + 1 && states[0] == Initial(j, poolSize)
    && (forall i :: 0 <= i < |order| ==>
          Enabled(j, states[i], order[i]) && states[i + 1] == Complete(j, states[i], order[i]))
  }

  lemma {:induction false} RunsKeepInv(j: Job, poolSize: Num, states: seq<State>, order: seq<nat>, i: nat)
    requires IsRun(j, poolSize, states, order) && i < |states|
    ensures Inv(j, states[i])
    ensures |states[i].workers| == WorkerCount(j, poolSize)
    ensures states[i].next == WorkerCount(j, poolSize) + i
  {
    hide Inv;
    if i == 0 {
      InitialInv(j, poolSize);
    } else {
      RunsKeepInv(j, poolSize, states, order, i - 1);
      InvKept(j, states[i - 1], order[i - 1]);
    }
  }

  predicate Finished(s: State) {
    forall w :: 0 <= w < |s.workers| ==> s.workers[w].Stopped?
  }

  /** At every point of every run: the steps spawned so far are 0, 1, 2, ... each once; no step runs
      twice at a time; at most min(poolSize, steps) run; and a stored result is its own step's. */
  lemma RunsAreOrderly(j: Job, poolSize: Num, states: seq<State>, order: seq<nat>, i: nat)
    requires IsRun(j, poolSize, states, order) && i < |states|
    ensures var s := states[i];
      && s.started == seq(|s.started|, (k: nat) => k) && |s.started| <= |j.steps|
      && |s.workers| == WorkerCount(j, poolSize)
      && (forall v, w :: 0 <= v < w < |s.workers| && s.workers[v].Running? && s.workers[w].Running? ==>
            s.workers[v].idx != s.workers[w].idx)
      && |s.results| == |j.steps|
      && (forall k :: 0 <= k < |j.steps| && s.results[k].Some? ==> s.results[k].value == Outcome(j, k))
  {
    RunsKeepInv(j, poolSize, states, order, i);
  }

  /** Every run ends: with at least one worker, after exactly one completion per step, and until then
      some worker is running. */
  lemma RunsEnd(j: Job, poolSize: Num, states: seq<State>, order: seq<nat>)
    requires IsRun(j, poolSize, states, order)
    ensures |order| <= |j.steps|
    ensures HasWorkers(poolSize) ==> (Finished(states[|order|]) <==> |order| == |j.steps|)
  {
    RunsKeepInv(j, poolSize, states, order, |order|);
    StoppedBounds(states[|order|].workers);
  }

  /** The loop after the workers: stored results in step order, skipping holes. */
  function Collect(results: seq<Option<Result>>): seq<(string, bool)> {
    if results == [] then []
    else
      var last := results[|results| - 1];
      Collect(results[..|results| - 1]) + (if last.Some? then [(last.value.name, last.value.ok)] else [])
  }

  lemma {:induction false} CollectFull(j: Job, results: seq<Option<Result>>)
    requires IsJob(j) && |results| <= |j.steps|
    requires forall i :: 0 <= i < |results| ==> results[i] == Some(Outcome(j, i))
    ensures Collect(results) == seq(|results|, i requires 0 <= i < |results| => (j.steps[i].name, j.codes[i] == 0))
  {
    if results != [] {
      CollectFull(j, results[..|results| - 1]);
    }
  }

  lemma {:induction false} CollectHoles(results: seq<Option<Result>>)
    requires forall i :: 0 <= i < |results| ==> results[i].None?
    ensures Collect(results) == []
  {
    if results != [] {
      CollectHoles(results[..|results| - 1]);
    }
  }

  ghost predicate IsFullReport(j: Job, report: seq<(string, bool)>)
    requires IsJob(j)
  {
    report == seq(|j.steps|, i requires 0 <= i < |j.steps| => (j.steps[i].name, j.codes[i] == 0))
  }

  /** A finished run reports one result per step, in step order, with the step's own outcome, exactly
      when there is a worker or nothing to do. With a pool size below one no step is run at all and
      the report is empty. */
  lemma FinishedRunReports(j: Job, poolSize: Num, states: seq<State>, order: seq<nat>)
    requires IsRun(j, poolSize, states, order) && Finished(states[|order|])
    ensures IsFullReport(j, Collect(states[|order|].results)) <==> HasWorkers(poolSize) || j.steps == []
    ensures HasWorkers(poolSize) ==> states[|order|].started == seq(|j.steps|, (k: nat) => k)
    ensures !HasWorkers(poolSize) ==> Collect(states[|order|].results) == [] && states[|order|].started == []
  {
    var s := states[|order|];
    RunsKeepInv(j, poolSize, states, order, |order|);
    RunsEnd(j, poolSize, states, order);
    assert forall i: nat :: !Runs(s, i);
    if HasWorkers(poolSize) {
      CollectFull(j, s.results);
    } else {
      CollectHoles(s.results);
    }
  }

  // ---------------------------------------------------------------- the code

  class Pool {
    const steps: seq<Step>
    const results: array<Option<Result>>
    var next: nat
    var workers: seq<Worker>
    ghost var started: seq<nat>

    ghost function View(): State
      reads this, results
    {
      State(results[..], next, workers, started)
    }

    /** `new Array(steps.length)`, then each worker up to its first await. */
    constructor (j: Job, poolSize: Num)
      requires IsJob(j)
      ensures steps == j.steps && View() == Initial(j, poolSize) && fresh(results)
    {
      steps := j.steps;
      results := new Option<Result>[|j.steps|](_ => None);
      next, workers, started := 0, [], [];
      new;
      ghost var empty := results[..];
      var count := WorkerCount(j, poolSize);
      for k := 0 to count
        invariant next == k && workers == seq(k, (i: nat) => Running(i)) && started == seq(k, (i: nat) => i)
        invariant results[..] == empty
      {
        workers := workers + [Stopped];
        FetchNext(j, k);
      }
      assert results[..] == seq(|j.steps|, _ => None);
    }

    /** `const idx = next++; if (idx >= steps.length) return;` and the spawn. */
    method FetchNext(ghost j: Job, w: nat)
      requires j.steps == steps && w < |workers|
      modifies this
      ensures View() == Fetch(j, old(View()), w)
    {
      var idx := next;
      next := next + 1;
      if idx >= |steps| {
        workers := workers[w := Stopped];
      } else {
        workers := workers[w := Running(idx)];
        started := started + [idx];
      }
    }

    /** `runOne` after its await, and the next turn of the worker's loop. */
    method ProcessExits(ghost j: Job, w: nat, code: int)
      requires j.steps == steps && Enabled(j, View(), w) && code == j.codes[workers[w].idx]
      modifies this, results
      ensures View() == Complete(j, old(View()), w)
    {
      var idx := workers[w].idx;
      results[idx] := Some(Result(steps[idx].name, code == 0, code));
      assert results[..] == old(results[..])[idx := Some(Outcome(j, idx))];
      FetchNext(j, w);
    }

    method Report() returns (final: seq<(string, bool)>)
      ensures final == Collect(results[..])
    {
      final := [];
      for i := 0 to results.Length
        invariant final == Collect(results[..i])
      {
        assert results[..i + 1][..i] == results[..i];
        if results[i].Some? {
          final := final + [(results[i].value.name, results[i].value.ok)];
        }
      }
      assert results[..results.Length] == results[..];
    }
  }
}
