/** Single-flight reindexing of one watched project, as a transition system.
  *
  * Task k is the one spawned for the k-th delivered batch of file events.  Every
  * atomic operation of `schedule_reindex` is one step; steps of different tasks,
  * and of index requests from clients, interleave freely.
  */
module Watch {
  /** Where a task is:
    *   Spawned   before the registry lookup
    *   Found     found its project, before the swap
    *   Queued    won the swap, waits for the indexing lock
    *   Locked    holds the lock, the flag is still set
    *   Cleared   holds the lock, reset the flag, the run has not read the disk yet
    *   Running   inside `index_project`
    *   Done      lost the swap, or finished its run
    *   Dropped   found the project no longer registered
    */
  datatype Pc = Spawned | Found | Queued | Locked | Cleared | Running | Done | Dropped

  datatype Lock = Free | HeldByTask(t: nat) | HeldByRequest(started: bool)

  /** `seen` counts the batches delivered before the latest run started. */
  datatype State = State(registered: bool, flag: bool, lock: Lock, tasks: seq<Pc>, seen: nat)

  const INIT := State(true, false, Free, [], 0)

  datatype Step =
    | Deliver
    | Remove
    | LookupFails(t: nat)
    | LookupFinds(t: nat)
    | SwapLoses(t: nat)
    | SwapWins(t: nat)
    | Acquire(t: nat)
    | ClearFlag(t: nat)
    | StartRun(t: nat)
    | FinishRun(t: nat)
    | RequestAcquires
    | RequestStarts
    | RequestReleases

  predicate At(s: State, t: nat, pc: Pc) {
    t < |s.tasks| && s.tasks[t] == pc
  }

  predicate Enabled(s: State, step: Step) {
    match step
    case Deliver => true
    case Remove => true
    case LookupFails(t) => At(s, t, Spawned) && !s.registered
    case LookupFinds(t) => At(s, t, Spawned) && s.registered
    case SwapLoses(t) => At(s, t, Found) && s.flag
    case SwapWins(t) => At(s, t, Found) && !s.flag
    case Acquire(t) => At(s, t, Queued) && s.lock == Free
    case ClearFlag(t) => At(s, t, Locked)
    case StartRun(t) => At(s, t, Cleared)
    case FinishRun(t) => At(s, t, Running)
    case RequestAcquires => s.lock == Free
    case RequestStarts => s.lock == HeldByRequest(false)
    case RequestReleases => s.lock.HeldByRequest?
  }

  function Move(s: State, t: nat, pc: Pc): State
    requires t < |s.tasks|
  {
    s.(tasks := s.tasks[t := pc])
  }

  function Apply(s: State, step: Step): State
    requires Enabled(s, step)
  {
    match step
    case Deliver => s.(tasks := s.tasks + [Spawned])
    case Remove => s.(registered := false)
    case LookupFails(t) => Move(s, t, Dropped)
    case LookupFinds(t) => Move(s, t, Found)
    case SwapLoses(t) => Move(s, t, Done)
    case SwapWins(t) => Move(s, t, Queued).(flag := true)
    case Acquire(t) => Move(s, t, Locked).(lock := HeldByTask(t))
    case ClearFlag(t) => Move(s, t, Cleared).(flag := false)
    case StartRun(t) => Move(s, t, Running).(seen := |s.tasks|)
    case FinishRun(t) => Move(s, t, Done).(lock := Free)
    case RequestAcquires => s.(lock := HeldByRequest(false))
    case RequestStarts => s.(lock := HeldByRequest(true), seen := |s.tasks|)
    case RequestReleases => s.(lock := Free)
  }

  // ---------- what every reachable state satisfies ----------

  /** Past the swap, not yet past the reset of the flag. */
  predicate HoldsFlag(pc: Pc) {
    pc == Queued || pc == Locked
  }

  predicate HoldsLock(pc: Pc) {
    pc == Locked || pc == Cleared || pc == Running
  }

  /** Not past the swap yet. */
  predicate Arriving(pc: Pc) {
    pc == Spawned || pc == Found
  }

  /** A run of this task is still to start. */
  predicate Pending(pc: Pc) {
    pc == Queued || pc == Locked || pc == Cleared
  }

  ghost predicate FlagOk(s: State) {
    && (s.flag <==> exists t :: 0 <= t < |s.tasks| && HoldsFlag(s.tasks[t]))
    && forall t, u :: 0 <= t < |s.tasks| && 0 <= u < |s.tasks| && HoldsFlag(s.tasks[t]) && HoldsFlag(s.tasks[u]) ==>
         t == u
  }

  /** Mutual exclusion: a task is past `lock().await` exactly while it owns the lock. */
  ghost predicate LockOk(s: State) {
    && (s.lock.HeldByTask? ==> s.lock.t < |s.tasks|)
    && forall t :: 0 <= t < |s.tasks| ==> (HoldsLock(s.tasks[t]) <==> s.lock == HeldByTask(t))
  }

  ghost predicate SomePending(s: State) {
    exists t :: 0 <= t < |s.tasks| && Pending(s.tasks[t])
  }

  /** Batch k is not lost: a run started after it, or a run that will see it is
    * still to start, unless the project was removed. */
  ghost predicate Served(s: State, k: nat)
    requires k < |s.tasks|
  {
    k < s.seen || Arriving(s.tasks[k]) || s.tasks[k] == Dropped || SomePending(s)
  }

  ghost predicate Inv(s: State) {
    && FlagOk(s) && LockOk(s) && s.seen <= |s.tasks|
    && (forall k {:trigger Served(s, k)} :: 0 <= k < |s.tasks| ==> Served(s, k))
    && (s.registered ==> forall k :: 0 <= k < |s.tasks| ==> s.tasks[k] != Dropped)
  }

  lemma InvInit()
    ensures Inv(INIT)
  {
  }

  lemma FlagKept(s: State, step: Step)
    requires Inv(s) && Enabled(s, step)
    ensures FlagOk(Apply(s, step))
  {
    var s' := Apply(s, step);
    assert forall u :: 0 <= u < |s.tasks| && !(step.SwapWins? || step.ClearFlag?) ==>
        (HoldsFlag(s'.tasks[u]) <==> HoldsFlag(s.tasks[u]));
    if step.SwapWins? {
      assert HoldsFlag(s'.tasks[step.t]);
    }
  }

  lemma LockKept(s: State, step: Step)
    requires Inv(s) && Enabled(s, step)
    ensures LockOk(Apply(s, step))
  {
  }

  lemma ServedKept(s: State, step: Step, k: nat)
    requires Inv(s) && Enabled(s, step) && k < |s.tasks|
    ensures Served(Apply(s, step), k)
  {
    var s' := Apply(s, step);
    assert Served(s, k);
    if SomePending(s) {
      var t :| 0 <= t < |s.tasks| && Pending(s.tasks[t]);
      assert !step.StartRun? ==> Pending(s'.tasks[t]);
    }
    if step.SwapLoses? {
      var t :| 0 <= t < |s.tasks| && HoldsFlag(s.tasks[t]);
      assert Pending(s'.tasks[t]);
    }
    if step.SwapWins? {
      assert Pending(s'.tasks[step.t]);
    }
  }

  lemma InvKept(s: State, step: Step)
    requires Inv(s) && Enabled(s, step)
    ensures Inv(Apply(s, step))
  {
    var s' := Apply(s, step);
    FlagKept(s, step);
    LockKept(s, step);
    forall k | 0 <= k < |s'.tasks|
      ensures Served(s', k)
    {
      if k < |s.tasks| {
        ServedKept(s, step, k);
      }
    }
  }

  // ---------- whole runs ----------

  /** The states a sequence of steps passes through. */
  ghost predicate Execution(states: seq<State>, steps: seq<Step>) {
    && |states| == |steps| + 1 && states[0] == INIT
    && forall i :: 0 <= i < |steps| ==> Enabled(states[i], steps[i]) && states[i + 1] == Apply(states[i], steps[i])
  }

  lemma InvAlways(states: seq<State>, steps: seq<Step>, i: nat)
    requires Execution(states, steps) && i < |states|
    ensures Inv(states[i])
    decreases i
  {
    if i == 0 {
      InvInit();
    } else {
      InvAlways(states, steps, i - 1);
      InvKept(states[i - 1], steps[i - 1]);
    }
  }

  /** The flag is set exactly while one task is past the swap and before the
    * reset, and no two tasks hold the lock, in every execution. */
  lemma SingleFlight(states: seq<State>, steps: seq<Step>, i: nat)
    requires Execution(states, steps) && i < |states|
    ensures var s := states[i];
            && (s.flag <==> exists t :: 0 <= t < |s.tasks| && HoldsFlag(s.tasks[t]))
            && (forall t, u :: 0 <= t < u < |s.tasks| ==> !(HoldsFlag(s.tasks[t]) && HoldsFlag(s.tasks[u])))
            && (forall t, u :: 0 <= t < u < |s.tasks| ==> !(HoldsLock(s.tasks[t]) && HoldsLock(s.tasks[u])))
            && (s.lock.HeldByRequest? ==> forall t :: 0 <= t < |s.tasks| ==> !HoldsLock(s.tasks[t]))
  {
    InvAlways(states, steps, i);
  }

  predicate IsStart(step: Step) {
    step.StartRun? || step.RequestStarts?
  }

  /** `seen` passes a batch's number only by a run starting. */
  lemma SeenGrowsByStarts(states: seq<State>, steps: seq<Step>, from: nat, last: nat, k: nat) returns (j: nat)
    requires Execution(states, steps) && from <= last < |states|
    requires states[from].seen <= k < states[last].seen
    ensures from <= j < last && IsStart(steps[j])
    decreases last
  {
    j := last - 1;
    if k < states[j].seen {
      j := SeenGrowsByStarts(states, steps, from, j, k);
    }
  }

  /** No edit is lost: by the time nothing is arriving or pending, every batch
    * delivered to a registered project was followed by the start of a run. */
  lemma NoEditIsLost(states: seq<State>, steps: seq<Step>, d: nat, n: nat) returns (j: nat)
    requires Execution(states, steps) && d < n < |states|
    requires steps[d] == Deliver && states[n].registered
    requires forall t :: 0 <= t < |states[n].tasks| ==> !Arriving(states[n].tasks[t]) && !Pending(states[n].tasks[t])
    ensures d < j < n && IsStart(steps[j])
  {
    var k := |states[d].tasks|;
    InvAlways(states, steps, d);
    InvAlways(states, steps, n);
    TasksGrow(states, steps, d + 1, n);
    assert Served(states[n], k);
    j := SeenGrowsByStarts(states, steps, d + 1, n, k);
  }

  lemma TasksGrow(states: seq<State>, steps: seq<Step>, from: nat, last: nat)
    requires Execution(states, steps) && from <= last < |states|
    ensures |states[from].tasks| <= |states[last].tasks|
    decreases last
  {
    if from < last {
      TasksGrow(states, steps, from, last - 1);
    }
  }

  /** Edits landing during a run, once their tasks are past the swap, are served
    * by exactly one further queued run. */
  lemma OneTrailingRun(s: State, r: nat, k: nat) returns (t: nat)
    requires Inv(s) && At(s, r, Running) && s.seen <= k && At(s, k, Done)
    ensures At(s, t, Queued)
    ensures forall u :: 0 <= u < |s.tasks| && Pending(s.tasks[u]) ==> u == t
  {
    assert Served(s, k);
    t :| 0 <= t < |s.tasks| && Pending(s.tasks[t]);
    assert HoldsLock(s.tasks[r]);
    forall u | 0 <= u < |s.tasks| && Pending(s.tasks[u])
      ensures s.tasks[u] == Queued && u == t
    {
      assert HoldsFlag(s.tasks[u]) && HoldsFlag(s.tasks[t]);
    }
  }

  // ---------- progress ----------

  function Rank(pc: Pc): nat {
    match pc
    case Spawned => 6
    case Found => 5
    case Queued => 4
    case Locked => 3
    case Cleared => 2
    case Running => 1
    case Done => 0
    case Dropped => 0
  }

  function Work(tasks: seq<Pc>): nat {
    if |tasks| == 0 then 0 else Work(tasks[..|tasks| - 1]) + Rank(tasks[|tasks| - 1])
  }

  function Measure(s: State): nat {
    Work(s.tasks) + (if s.lock == HeldByRequest(false) then 2 else if s.lock == HeldByRequest(true) then 1 else 0)
  }

  /** Steps other than new events, removal and new requests. */
  predicate Internal(step: Step) {
    !step.Deliver? && !step.Remove? && !step.RequestAcquires?
  }

  lemma WorkAfterMove(tasks: seq<Pc>, t: nat, pc: Pc)
    requires t < |tasks|
    ensures Work(tasks[t := pc]) == Work(tasks) - Rank(tasks[t]) + Rank(pc)
  {
    var n := |tasks| - 1;
    if t < n {
      WorkAfterMove(tasks[..n], t, pc);
      assert tasks[t := pc][..n] == tasks[..n][t := pc];
    } else {
      assert tasks[t := pc][..n] == tasks[..n];
    }
  }

  /** Every internal step uses up some of the work, so only finitely many follow one another. */
  lemma InternalStepsFinish(s: State, step: Step)
    requires Enabled(s, step) && Internal(step)
    ensures Measure(Apply(s, step)) < Measure(s)
  {
    match step
    case LookupFails(t) => WorkAfterMove(s.tasks, t, Dropped);
    case LookupFinds(t) => WorkAfterMove(s.tasks, t, Found);
    case SwapLoses(t) => WorkAfterMove(s.tasks, t, Done);
    case SwapWins(t) => WorkAfterMove(s.tasks, t, Queued);
    case Acquire(t) => WorkAfterMove(s.tasks, t, Locked);
    case ClearFlag(t) => WorkAfterMove(s.tasks, t, Cleared);
    case StartRun(t) => WorkAfterMove(s.tasks, t, Running);
    case FinishRun(t) => WorkAfterMove(s.tasks, t, Done);
    case _ =>
  }

  /** No deadlock: while a task is unfinished, some internal step is possible. */
  lemma NeverStuck(s: State, t: nat) returns (step: Step)
    requires Inv(s) && t < |s.tasks| && s.tasks[t] != Done && s.tasks[t] != Dropped
    ensures Internal(step) && Enabled(s, step)
  {
    match s.tasks[t]
    case Spawned => step := if s.registered then LookupFinds(t) else LookupFails(t);
    case Found => step := if s.flag then SwapLoses(t) else SwapWins(t);
    case Queued =>
      match s.lock {
        case Free => step := Acquire(t);
        case HeldByRequest(_) => step := RequestReleases;
        case HeldByTask(u) =>
          step := if s.tasks[u] == Locked then ClearFlag(u)
                  else if s.tasks[u] == Cleared then StartRun(u)
                  else FinishRun(u);
      }
    case Locked => step := ClearFlag(t);
    case Cleared => step := StartRun(t);
    case Running => step := FinishRun(t);
  }
}
