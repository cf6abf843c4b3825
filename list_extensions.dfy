/**
 * `ListExtensions`: `AddRange` on any `IList<T>`, and the three throttled
 * parallel runners. The runners are modelled sequentially: the scheduler's
 * choices are an arbitrary trace of steps, `Task.WhenAll` is a final drain
 * that runs every task to completion, and the `SemaphoreSlim` is a permit
 * counter.
 */
module ListExtensions {
  import opened Runtime
  import opened Lists
  import Preconditions

  // ---------------------------------------------------------------------------
  // AddRange
  // ---------------------------------------------------------------------------

  /**
   * Appends `items` to `list` in enumeration order: through
   * `List<T>.AddRange` when the list is a concrete `List<T>`, one `Add` at a
   * time otherwise. A read-only list raises on the first `Add`.
   */
  method AddRange(list: BackingList?, items: Option<seq<Elem>>) returns (o: Outcome)
    requires list != null ==> list.Valid()
    requires list != null && items.Some? ==> forall e | e in items.value :: IsA(e, list.elemKind)
    modifies list
    ensures list != null ==> list.Valid()
    ensures list == null ==> o == Fail(ArgumentNull("list"))
    ensures list != null && items.None? ==> o == Fail(ArgumentNull("items")) && list.items == old(list.items)
    ensures list != null && items.Some? ==>
      o == (if list.readOnly && items.value != [] then Fail(NotSupported) else Pass)
    ensures list != null && items.Some? ==>
      list.items == if o.Pass? then old(list.items) + items.value else old(list.items)
  {
    var l := Preconditions.CheckNotNull(if list == null then None else Some(list), "list");
    if l.Failure? {
      return Fail(l.error);
    }
    var its := Preconditions.CheckNotNull(items, "items");
    if its.Failure? {
      return Fail(its.error);
    }
    var values := its.value;
    if list.isConcreteList {
      list.AddAll(values);
      return Pass;
    }
    for i := 0 to |values|
      invariant list.Valid()
      invariant list.items == old(list.items) + values[..i]
      invariant list.readOnly ==> i == 0
    {
      var added := list.Add(values[i]);
      if added.Fail? {
        return added;
      }
      assert values[..i + 1] == values[..i] + [values[i]];
    }
    assert values[..|values|] == values;
    o := Pass;
  }

  // ---------------------------------------------------------------------------
  // The argument guard shared by the three runners
  // ---------------------------------------------------------------------------

  /**
   * `source` is checked for null, then `taskSelector`, then `maxParallel`
   * must be at least 1; the first failing check decides the exception.
   */
  function ArgumentsGuard<A, F>(source: Option<A>, taskSelector: Option<F>, maxParallel: int): (o: Outcome)
    ensures o.Pass? <==> source.Some? && taskSelector.Some? && 1 <= maxParallel
    ensures source.None? ==> o == Fail(ArgumentNull("source"))
    ensures source.Some? && taskSelector.None? ==> o == Fail(ArgumentNull("taskSelector"))
    ensures source.Some? && taskSelector.Some? && maxParallel < 1 ==>
      o == Fail(ArgumentOutOfRange("maxParallel", maxParallel, Single(Clause(GreaterThanInclusive, 1))))
  {
    var s := Preconditions.CheckNotNull(source, "source");
    if s.Failure? then Fail(s.error)
    else
      var t := Preconditions.CheckNotNull(taskSelector, "taskSelector");
      if t.Failure? then Fail(t.error)
      else
        var m := Preconditions.CheckRange(maxParallel, "maxParallel", Some(1), true, None, true);
        if m.Failure? then Fail(m.error) else Pass
  }

  // ---------------------------------------------------------------------------
  // The permit counter and the task schedule
  // ---------------------------------------------------------------------------

  /**
   * `SemaphoreSlim(maxParallel, maxParallel)`: `available` is its current
   * count; `held` counts the permits taken and not yet given back.
   */
  class Semaphore {
    const capacity: nat
    var available: nat
    ghost var held: nat

    ghost predicate Valid()
      reads this
    {
      held + available == capacity
    }

    constructor (capacity: nat)
      ensures Valid() && this.capacity == capacity && available == capacity && held == 0
    {
      this.capacity := capacity;
      available := capacity;
      held := 0;
    }

    /** `WaitAsync` when it can complete now: takes a permit if one is free. */
    method TryWait() returns (acquired: bool)
      requires Valid()
      modifies this
      ensures Valid()
      ensures acquired <==> old(available) > 0
      ensures available == if acquired then old(available) - 1 else old(available)
      ensures held == if acquired then old(held) + 1 else old(held)
    {
      acquired := available > 0;
      if acquired {
        available := available - 1;
        held := held + 1;
      }
    }

    /** `Release`: gives one permit back. */
    method Release()
      requires Valid() && held > 0
      modifies this
      ensures Valid()
      ensures available == old(available) + 1 && held == old(held) - 1
    {
      available := available + 1;
      held := held - 1;
    }
  }

  /**
   * Where the task of one source element is: waiting for a permit, running
   * its operation while holding one, or finished (operation done, callback
   * called, permit released).
   */
  datatype TaskState = Waiting | Running | Done

  /**
   * One choice of the scheduler: let a waiting task's `WaitAsync` complete,
   * or let a running task's operation complete. A step that is not possible
   * at that moment (no free permit, or the task is elsewhere) changes nothing.
   */
  datatype Step = Admit(task: nat) | Finish(task: nat)

  /** `p` lists each of `0 .. n-1` exactly once. */
  ghost predicate IsPermutation(p: seq<nat>, n: nat) {
    |p| == n &&
    (forall k | 0 <= k < |p| :: p[k] < n) &&
    (forall k, l | 0 <= k < l < |p| :: p[k] != p[l]) &&
    (forall j | 0 <= j < n :: j in p)
  }

  /**
   * What holds at every point of a run: every held permit belongs to a
   * running task, and the tasks are finished exactly in the order
   * `completion` lists them, each once.
   */
  ghost predicate Throttled(gate: Semaphore, state: seq<TaskState>, completion: seq<nat>, running: nat)
    reads gate
  {
    gate.Valid() && gate.held == running && running == multiset(state)[Running] &&
    |completion| == multiset(state)[Done] &&
    (forall k | 0 <= k < |completion| :: completion[k] < |state| && state[completion[k]] == Done) &&
    (forall k, l | 0 <= k < l < |completion| :: completion[k] != completion[l]) &&
    (forall j | 0 <= j < |state| && state[j] == Done :: j in completion)
  }

  /** A run in which every task has finished has finished them all once each. */
  lemma {:induction false} AllDoneCount(state: seq<TaskState>)
    requires forall j | 0 <= j < |state| :: state[j] == Done
    ensures multiset(state)[Done] == |state|
  {
    if state != [] {
      AllDoneCount(state[1..]);
      assert state == [state[0]] + state[1..];
    }
  }

  /** `n` tasks, all in the same state. */
  function Uniform(n: nat, t: TaskState): (r: seq<TaskState>)
    ensures |r| == n && forall j | 0 <= j < n :: r[j] == t
  {
    seq(n, _ => t)
  }

  /** What a run has brought about so far: each task's state, and the order in which tasks finished. */
  datatype Snapshot = Snapshot(state: seq<TaskState>, completion: seq<nat>)

  /**
   * The effect of one scheduler step under `maxParallel` permits, stated
   * without the semaphore: a waiting task starts only while fewer than
   * `maxParallel` operations run, a running task finishes and is recorded
   * in the completion order, and a step that is not possible changes
   * nothing.
   */
  ghost function Apply(step: Step, s: Snapshot, maxParallel: nat): Snapshot {
    match step
    case Admit(i) =>
      if i < |s.state| && s.state[i] == Waiting && multiset(s.state)[Running] < maxParallel
      then Snapshot(s.state[i := Running], s.completion)
      else s
    case Finish(i) =>
      if i < |s.state| && s.state[i] == Running
      then Snapshot(s.state[i := Done], s.completion + [i])
      else s
  }

  /** `history` is the run of `steps` from `history[0]`: one snapshot more after each step. */
  ghost predicate Follows(history: seq<Snapshot>, steps: seq<Step>, maxParallel: nat) {
    |history| == |steps| + 1 &&
    forall t | 0 <= t < |steps| :: history[t + 1] == Apply(steps[t], history[t], maxParallel)
  }

  /** At no point of `history` do more than `maxParallel` operations run. */
  ghost predicate WithinPermits(history: seq<Snapshot>, maxParallel: nat) {
    forall k | 0 <= k < |history| :: multiset(history[k].state)[Running] <= maxParallel
  }

  /** A run of one step more. */
  lemma FollowsExtend(history: seq<Snapshot>, steps: seq<Step>, step: Step, next: Snapshot, maxParallel: nat)
    requires Follows(history, steps, maxParallel)
    requires next == Apply(step, history[|history| - 1], maxParallel)
    ensures Follows(history + [next], steps + [step], maxParallel)
  {
  }

  /** A run of `a`, then a run of `b` from where the first ends, is a run of `a + b`. */
  lemma FollowsConcat(h1: seq<Snapshot>, a: seq<Step>, h2: seq<Snapshot>, b: seq<Step>, maxParallel: nat)
    requires Follows(h1, a, maxParallel) && Follows(h2, b, maxParallel) && h1[|h1| - 1] == h2[0]
    ensures Follows(h1 + h2[1..], a + b, maxParallel)
  {
    var h, s := h1 + h2[1..], a + b;
    forall t | 0 <= t < |s|
      ensures h[t + 1] == Apply(s[t], h[t], maxParallel)
    {
      if t < |a| {
        assert h[t + 1] == h1[t + 1] && h[t] == h1[t] && s[t] == a[t];
      } else {
        var u := t - |a|;
        assert h[t + 1] == h2[u + 1] && h[t] == h2[u] && s[t] == b[u];
      }
    }
  }

  /** No step takes the number of running operations past the permit count. */
  lemma ApplyWithinPermits(step: Step, s: Snapshot, maxParallel: nat)
    requires multiset(s.state)[Running] <= maxParallel
    ensures multiset(Apply(step, s, maxParallel).state)[Running] <= maxParallel
  {
  }

  /**
   * Whatever the steps, a run that starts within the permit count stays
   * within it at every point.
   */
  lemma {:induction false} FollowsWithinPermits(history: seq<Snapshot>, steps: seq<Step>, maxParallel: nat)
    requires Follows(history, steps, maxParallel)
    requires multiset(history[0].state)[Running] <= maxParallel
    ensures WithinPermits(history, maxParallel)
  {
    if steps != [] {
      var last := |steps| - 1;
      FollowsWithinPermits(history[..last + 1], steps[..last], maxParallel);
      ApplyWithinPermits(steps[last], history[last], maxParallel);
    }
  }

  /** When every task has finished, the completion order lists each task exactly once. */
  lemma FinishedRunIsPermutation(gate: Semaphore, state: seq<TaskState>, completion: seq<nat>, running: nat, n: nat)
    requires Throttled(gate, state, completion, running) && |state| == n
    requires forall j | 0 <= j < |state| :: state[j] == Done
    ensures state == Uniform(n, Done)
    ensures IsPermutation(completion, n)
  {
    AllDoneCount(state);
  }

  /**
   * The first line of `ProcessAsync`: the task waits for a permit and, when
   * it gets one, starts its operation. The semaphore admits exactly when
   * `Apply` does.
   */
  method AdmitTask(gate: Semaphore, state: seq<TaskState>, completion: seq<nat>, running: nat, i: nat)
    returns (state': seq<TaskState>, running': nat)
    requires Throttled(gate, state, completion, running) && i < |state| && state[i] == Waiting
    modifies gate
    ensures Throttled(gate, state', completion, running')
    ensures Snapshot(state', completion) == Apply(Admit(i), Snapshot(state, completion), gate.capacity)
    ensures state' == if old(gate.available) > 0 then state[i := Running] else state
    ensures running' == if old(gate.available) > 0 then running + 1 else running
  {
    var acquired := gate.TryWait();
    if acquired {
      state' := state[i := Running];
      running' := running + 1;
    } else {
      state', running' := state, running;
    }
  }

  /**
   * The rest of `ProcessAsync`: the operation completes, the callback runs
   * while the permit is still held, and the permit is released.
   */
  method FinishTask(gate: Semaphore, state: seq<TaskState>, completion: seq<nat>, running: nat, i: nat)
    returns (state': seq<TaskState>, completion': seq<nat>, running': nat)
    requires Throttled(gate, state, completion, running) && i < |state| && state[i] == Running
    modifies gate
    ensures Throttled(gate, state', completion', running')
    ensures Snapshot(state', completion') == Apply(Finish(i), Snapshot(state, completion), gate.capacity)
    ensures state' == state[i := Done] && completion' == completion + [i] && running' == running - 1
  {
    assert i !in completion;
    state' := state[i := Done];
    completion' := completion + [i];
    gate.Release();
    running' := running - 1;
  }

  /**
   * One scheduler choice: the task it names moves on when it can, as
   * `Apply` says, and otherwise nothing changes.
   */
  method TakeStep(gate: Semaphore, state: seq<TaskState>, completion: seq<nat>, running: nat, step: Step)
    returns (state': seq<TaskState>, completion': seq<nat>, running': nat)
    requires Throttled(gate, state, completion, running)
    modifies gate
    ensures Throttled(gate, state', completion', running') && |state'| == |state|
    ensures Snapshot(state', completion') == Apply(step, Snapshot(state, completion), gate.capacity)
  {
    state', completion', running' := state, completion, running;
    match step {
      case Admit(i) =>
        if i < |state| && state[i] == Waiting {
          state', running' := AdmitTask(gate, state, completion, running, i);
        }
      case Finish(i) =>
        if i < |state| && state[i] == Running {
          state', completion', running' := FinishTask(gate, state, completion, running, i);
        }
    }
  }

  /**
   * The scheduler's choices, one step of `trace` after the other, from all
   * `n` tasks waiting with every permit free. `history` is that run.
   */
  method RunTrace(gate: Semaphore, n: nat, trace: seq<Step>)
    returns (state: seq<TaskState>, completion: seq<nat>, running: nat, ghost history: seq<Snapshot>)
    requires gate.Valid() && gate.held == 0
    modifies gate
    ensures Throttled(gate, state, completion, running) && |state| == n
    ensures Follows(history, trace, gate.capacity) && history[0] == Snapshot(Uniform(n, Waiting), [])
    ensures history[|history| - 1] == Snapshot(state, completion)
  {
    state := Uniform(n, Waiting);
    assert Running !in state && Done !in state;
    completion := [];
    running := 0;
    history := [Snapshot(state, completion)];
    for t := 0 to |trace|
      invariant Throttled(gate, state, completion, running) && |state| == n
      invariant Follows(history, trace[..t], gate.capacity) && history[0] == Snapshot(Uniform(n, Waiting), [])
      invariant history[|history| - 1] == Snapshot(state, completion)
    {
      state, completion, running := TakeStep(gate, state, completion, running, trace[t]);
      FollowsExtend(history, trace[..t], trace[t], Snapshot(state, completion), gate.capacity);
      history := history + [Snapshot(state, completion)];
      assert trace[..t + 1] == trace[..t] + [trace[t]];
    }
    assert trace[..|trace|] == trace;
  }

  /**
   * The first half of `Task.WhenAll`: every running operation completes.
   * `history` is the run of the steps `more` this takes.
   */
  method DrainRunning(gate: Semaphore, state: seq<TaskState>, completion: seq<nat>, running: nat)
    returns (state': seq<TaskState>, completion': seq<nat>, running': nat,
             ghost history: seq<Snapshot>, ghost more: seq<Step>)
    requires Throttled(gate, state, completion, running)
    modifies gate
    ensures Throttled(gate, state', completion', running') && |state'| == |state|
    ensures forall j | 0 <= j < |state'| :: state'[j] != Running
    ensures Follows(history, more, gate.capacity) && history[0] == Snapshot(state, completion)
    ensures history[|history| - 1] == Snapshot(state', completion')
  {
    state', completion', running' := state, completion, running;
    history, more := [Snapshot(state, completion)], [];
    for i := 0 to |state|
      invariant Throttled(gate, state', completion', running') && |state'| == |state|
      invariant forall j | 0 <= j < i :: state'[j] != Running
      invariant Follows(history, more, gate.capacity) && history[0] == Snapshot(state, completion)
      invariant history[|history| - 1] == Snapshot(state', completion')
    {
      if state'[i] == Running {
        state', completion', running' := FinishTask(gate, state', completion', running', i);
        FollowsExtend(history, more, Finish(i), Snapshot(state', completion'), gate.capacity);
        history, more := history + [Snapshot(state', completion')], more + [Finish(i)];
      }
    }
  }

  /**
   * With no other task running, a waiting task is sure to get a permit, and
   * it runs to completion: `history` is the run of `Admit(i)`, then `Finish(i)`.
   */
  method RunAlone(gate: Semaphore, state: seq<TaskState>, completion: seq<nat>, running: nat, i: nat)
    returns (state': seq<TaskState>, completion': seq<nat>, running': nat, ghost history: seq<Snapshot>)
    requires Throttled(gate, state, completion, running) && 1 <= gate.capacity
    requires Running !in state && i < |state| && state[i] == Waiting
    modifies gate
    ensures Throttled(gate, state', completion', running')
    ensures state' == state[i := Done]
    ensures Follows(history, [Admit(i), Finish(i)], gate.capacity) && history[0] == Snapshot(state, completion)
    ensures history[|history| - 1] == Snapshot(state', completion')
  {
    ghost var start := Snapshot(state, completion);
    state', running' := AdmitTask(gate, state, completion, running, i);
    ghost var admitted := Snapshot(state', completion);
    FollowsExtend([start], [], Admit(i), admitted, gate.capacity);
    state', completion', running' := FinishTask(gate, state', completion, running', i);
    FollowsExtend([start, admitted], [Admit(i)], Finish(i), Snapshot(state', completion'), gate.capacity);
    history := [start, admitted, Snapshot(state', completion')];
  }

  /**
   * The second half of `Task.WhenAll`: with nothing running, each waiting
   * task gets a permit and completes in turn. `history` is the run of the
   * steps `more` this takes.
   */
  method DrainWaiting(gate: Semaphore, state: seq<TaskState>, completion: seq<nat>, running: nat)
    returns (state': seq<TaskState>, completion': seq<nat>, running': nat,
             ghost history: seq<Snapshot>, ghost more: seq<Step>)
    requires Throttled(gate, state, completion, running) && 1 <= gate.capacity
    requires forall j | 0 <= j < |state| :: state[j] != Running
    modifies gate
    ensures Throttled(gate, state', completion', running') && |state'| == |state|
    ensures forall j | 0 <= j < |state'| :: state'[j] == Done
    ensures Follows(history, more, gate.capacity) && history[0] == Snapshot(state, completion)
    ensures history[|history| - 1] == Snapshot(state', completion')
  {
    state', completion', running' := state, completion, running;
    history, more := [Snapshot(state, completion)], [];
    for i := 0 to |state|
      invariant Throttled(gate, state', completion', running') && |state'| == |state|
      invariant forall j | 0 <= j < |state'| :: state'[j] != Running
      invariant forall j | 0 <= j < i :: state'[j] == Done
      invariant Follows(history, more, gate.capacity) && history[0] == Snapshot(state, completion)
      invariant history[|history| - 1] == Snapshot(state', completion')
    {
      if state'[i] == Waiting {
        ghost var alone;
        state', completion', running', alone := RunAlone(gate, state', completion', running', i);
        FollowsConcat(history, more, alone, [Admit(i), Finish(i)], gate.capacity);
        history, more := history + alone[1..], more + [Admit(i), Finish(i)];
      }
    }
  }

  /**
   * The tasks of `n` source elements under a permit counter of
   * `maxParallel`, scheduled by `trace` and then drained as `Task.WhenAll`
   * does. `history` is the run of `trace + drain` from all tasks waiting to
   * all tasks done: every task finishes exactly once, `completion` is the
   * order in which they finished, and no more than `maxParallel` operations
   * are running at any point.
   */
  method RunThrottled(n: nat, maxParallel: nat, trace: seq<Step>)
    returns (completion: seq<nat>, ghost drain: seq<Step>, ghost history: seq<Snapshot>)
    requires 1 <= maxParallel
    ensures Follows(history, trace + drain, maxParallel)
    ensures history[0] == Snapshot(Uniform(n, Waiting), [])
    ensures history[|history| - 1] == Snapshot(Uniform(n, Done), completion)
    ensures WithinPermits(history, maxParallel)
    ensures IsPermutation(completion, n)
  {
    var gate := new Semaphore(maxParallel);
    var state, running;
    state, completion, running, history := RunTrace(gate, n, trace);
    // Task.WhenAll: whatever the trace left unfinished runs to completion.
    ghost var h1, first, h2, second;
    state, completion, running, h1, first := DrainRunning(gate, state, completion, running);
    FollowsConcat(history, trace, h1, first, maxParallel);
    history := history + h1[1..];
    state, completion, running, h2, second := DrainWaiting(gate, state, completion, running);
    FollowsConcat(history, trace + first, h2, second, maxParallel);
    history := history + h2[1..];
    drain := first + second;
    assert trace + first + second == trace + drain;
    FinishedRunIsPermutation(gate, state, completion, running, n);
    assert Running !in history[0].state;
    FollowsWithinPermits(history, trace + drain, maxParallel);
  }

  // ---------------------------------------------------------------------------
  // The three runners
  // ---------------------------------------------------------------------------

  /** The elements of `s` at the positions `p` lists, in that order. */
  function Gather<T>(s: seq<T>, p: seq<nat>): (r: seq<T>)
    requires forall k | 0 <= k < |p| :: p[k] < |s|
    ensures |r| == |p|
    ensures forall k | 0 <= k < |p| :: r[k] == s[p[k]]
  {
    if p == [] then [] else [s[p[0]]] + Gather(s, p[1..])
  }

  /** Taking the last index out of a permutation leaves a permutation of the indices below it. */
  lemma PermutationWithoutLast(p: seq<nat>, n: nat, k: nat)
    requires IsPermutation(p, n + 1) && k < |p| && p[k] == n
    ensures IsPermutation(p[..k] + p[k + 1..], n)
  {
    var q := p[..k] + p[k + 1..];
    forall m | 0 <= m < |q|
      ensures q[m] == p[if m < k then m else m + 1]
    {
    }
    forall j | 0 <= j < n
      ensures j in q
    {
      assert j in p;
      var at :| 0 <= at < |p| && p[at] == j;
      assert q[if at < k then at else at - 1] == j;
    }
  }

  /**
   * Gathering from the front of `s` by the permutation without its last
   * index gives the full gathering with position `k` cut out.
   */
  lemma GatherWithoutLast<T>(s: seq<T>, p: seq<nat>, k: nat)
    requires IsPermutation(p, |s|) && k < |p| && p[k] == |s| - 1
    ensures IsPermutation(p[..k] + p[k + 1..], |s| - 1)
    ensures Gather(s[..|s| - 1], p[..k] + p[k + 1..]) == Gather(s, p)[..k] + Gather(s, p)[k + 1..]
  {
    PermutationWithoutLast(p, |s| - 1, k);
    GatherCut(s, p, k, p[..k] + p[k + 1..]);
  }

  /** Gathering with position `k` cut out of the positions is the gathering with position `k` cut out. */
  lemma GatherCut<T>(s: seq<T>, p: seq<nat>, k: nat, q: seq<nat>)
    requires s != [] && k < |p| && forall i | 0 <= i < |p| :: p[i] < |s|
    requires q == p[..k] + p[k + 1..] && forall m | 0 <= m < |q| :: q[m] < |s| - 1
    ensures Gather(s[..|s| - 1], q) == Gather(s, p)[..k] + Gather(s, p)[k + 1..]
  {
    var g := Gather(s, p);
    var h := Gather(s[..|s| - 1], q);
    var cut := g[..k] + g[k + 1..];
    forall m | 0 <= m < |q|
      ensures h[m] == cut[m]
    {
      var at := if m < k then m else m + 1;
      assert q[m] == p[at];
      assert h[m] == s[q[m]];
      assert cut[m] == g[at];
    }
    assert h == cut;
  }


  /**
   * Gathering by a permutation rearranges the sequence: every element
   * occurs in the result exactly as often as in the source.
   */
  lemma {:induction false} GatherPermutation<T>(s: seq<T>, p: seq<nat>)
    requires IsPermutation(p, |s|)
    ensures multiset(Gather(s, p)) == multiset(s)
  {
    if s != [] {
      var n := |s| - 1;
      var k := LastIndexPosition(p, n);
      var front, q := s[..n], p[..k] + p[k + 1..];
      GatherWithoutLast(s, p, k);
      GatherPermutation(front, q);
      ghost var g := Gather(s, p);
      assert g[k] == s[n];
      CutOne(g, k);
      assert multiset(g) == multiset(Gather(front, q)) + multiset{s[n]};
      assert multiset(g) == multiset(front) + multiset{s[n]};
      assert s == front + [s[n]];
      assert multiset(s) == multiset(front) + multiset{s[n]};
    }
  }

  /** Where the largest index sits in a permutation. */
  lemma LastIndexPosition(p: seq<nat>, n: nat) returns (k: nat)
    requires IsPermutation(p, n + 1)
    ensures k < |p| && p[k] == n
  {
    assert n in p;
    k :| 0 <= k < |p| && p[k] == n;
  }

  /**
   * `ForEachAsync(source, taskSelector, resultProcessor, maxParallel)`:
   * after the guard, runs one task per element; each finished task calls
   * `resultProcessor(item)` when there is one. `invoked` lists the
   * callback's arguments in call order and `completion` the element
   * indices in the order their tasks finished. `history` is the run of
   * `trace` and then the drain, as `RunThrottled` gives it: `completion` is
   * where it ends, and it never has more than `maxParallel` operations running.
   */
  method ForEachAsync<S>(source: Option<seq<S>>, taskSelector: Option<S -> ()>, hasResultProcessor: bool,
                         maxParallel: int, trace: seq<Step>)
    returns (o: Outcome, completion: seq<nat>, invoked: seq<S>, ghost drain: seq<Step>, ghost history: seq<Snapshot>)
    ensures o == ArgumentsGuard(source, taskSelector, maxParallel)
    ensures o.Fail? ==> completion == [] && invoked == []
    ensures o.Pass? ==> Follows(history, trace + drain, maxParallel)
    ensures o.Pass? ==> history[0] == Snapshot(Uniform(|source.value|, Waiting), [])
    ensures o.Pass? ==> history[|history| - 1] == Snapshot(Uniform(|source.value|, Done), completion)
    ensures o.Pass? ==> WithinPermits(history, maxParallel)
    ensures o.Pass? ==> IsPermutation(completion, |source.value|)
    ensures o.Pass? ==> |invoked| == if hasResultProcessor then |source.value| else 0
    ensures o.Pass? ==> forall k | 0 <= k < |invoked| :: invoked[k] == source.value[completion[k]]
    ensures o.Pass? && hasResultProcessor ==> multiset(invoked) == multiset(source.value)
  {
    o := ArgumentsGuard(source, taskSelector, maxParallel);
    if o.Fail? {
      return o, [], [], [], [];
    }
    completion, drain, history := RunThrottled(|source.value|, maxParallel, trace);
    invoked := if hasResultProcessor then Gather(source.value, completion) else [];
    GatherPermutation(source.value, completion);
  }

  /**
   * `ForEachAsync(source, taskSelector, resultProcessor, maxParallel)` with
   * an operation that yields a value: as above, and each callback receives
   * the element together with the value its own operation produced.
   */
  method ForEachAsyncWithResult<S, R>(source: Option<seq<S>>, taskSelector: Option<S -> R>, hasResultProcessor: bool,
                                      maxParallel: int, trace: seq<Step>)
    returns (o: Outcome, completion: seq<nat>, invoked: seq<(S, R)>,
             ghost drain: seq<Step>, ghost history: seq<Snapshot>)
    ensures o == ArgumentsGuard(source, taskSelector, maxParallel)
    ensures o.Fail? ==> completion == [] && invoked == []
    ensures o.Pass? ==> Follows(history, trace + drain, maxParallel)
    ensures o.Pass? ==> history[0] == Snapshot(Uniform(|source.value|, Waiting), [])
    ensures o.Pass? ==> history[|history| - 1] == Snapshot(Uniform(|source.value|, Done), completion)
    ensures o.Pass? ==> WithinPermits(history, maxParallel)
    ensures o.Pass? ==> IsPermutation(completion, |source.value|)
    ensures o.Pass? ==> |invoked| == if hasResultProcessor then |source.value| else 0
    ensures o.Pass? ==> forall k | 0 <= k < |invoked| ::
      invoked[k] == (source.value[completion[k]], taskSelector.value(source.value[completion[k]]))
  {
    o := ArgumentsGuard(source, taskSelector, maxParallel);
    if o.Fail? {
      return o, [], [], [], [];
    }
    var items := source.value;
    var selector := taskSelector.value;
    completion, drain, history := RunThrottled(|items|, maxParallel, trace);
    var outcomes := seq(|items|, i requires 0 <= i < |items| => (items[i], selector(items[i])));
    invoked := if hasResultProcessor then Gather(outcomes, completion) else [];
  }

  /**
   * The ordered fan-in of `ForEachOrderedAsync`: the task of index `i`
   * writes slot `i` of `indexList` when it finishes, in the order
   * `completion` gives; the slots are then read out by index. `log` lists
   * the slots in the order they are written.
   */
  method FanIn<S, R(0)>(source: seq<S>, selector: S -> R, completion: seq<nat>)
    returns (result: seq<R>, ghost log: seq<nat>)
    requires IsPermutation(completion, |source|)
    ensures |result| == |source|
    ensures forall i | 0 <= i < |source| :: result[i] == selector(source[i])
    ensures log == completion
  {
    var n := |source|;
    var indexList := new R[n];
    log := [];
    for k := 0 to n
      invariant log == completion[..k]
      invariant forall j | 0 <= j < n && j in log :: indexList[j] == selector(source[j])
    {
      var index := completion[k];
      indexList[index] := selector(source[index]);
      log := log + [index];
      assert completion[..k + 1] == log;
    }
    assert completion[..n] == completion;
    result := [];
    for i := 0 to n
      invariant |result| == i
      invariant forall j | 0 <= j < i :: result[j] == selector(source[j])
    {
      result := result + [indexList[i]];
    }
  }


  /**
   * `ForEachOrderedAsync(source, taskSelector, maxParallel)`: after the
   * guard, whatever the schedule, the results come back in source order,
   * one per element. `history` is the run of `trace` and then the drain,
   * ending in the completion order `completion`, within the permits.
   */
  method ForEachOrderedAsync<S, R(0)>(source: Option<seq<S>>, taskSelector: Option<S -> R>, maxParallel: int,
                                      trace: seq<Step>)
    returns (r: Result<seq<R>>, ghost completion: seq<nat>, ghost drain: seq<Step>, ghost history: seq<Snapshot>)
    ensures r.Failure? <==> ArgumentsGuard(source, taskSelector, maxParallel).Fail?
    ensures r.Failure? ==> r.error == ArgumentsGuard(source, taskSelector, maxParallel).error
    ensures r.Success? ==> |r.value| == |source.value|
    ensures r.Success? ==> forall i | 0 <= i < |source.value| :: r.value[i] == taskSelector.value(source.value[i])
    ensures r.Success? ==> Follows(history, trace + drain, maxParallel)
    ensures r.Success? ==> history[0] == Snapshot(Uniform(|source.value|, Waiting), [])
    ensures r.Success? ==> history[|history| - 1] == Snapshot(Uniform(|source.value|, Done), completion)
    ensures r.Success? ==> WithinPermits(history, maxParallel)
    ensures r.Success? ==> IsPermutation(completion, |source.value|)
  {
    var g := ArgumentsGuard(source, taskSelector, maxParallel);
    if g.Fail? {
      return Failure(g.error), [], [], [];
    }
    var order;
    order, drain, history := RunThrottled(|source.value|, maxParallel, trace);
    completion := order;
    var values, writeLog := FanIn(source.value, taskSelector.value, order);
    r := Success(values);
  }
}
