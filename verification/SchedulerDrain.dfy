/** What every run of the scheduler keeps, whatever the tasks and whoever schedules them: the
    active count is right, and no task free to run anywhere is left behind.
 */
module SchedulerDrain {
  import opened Options
  import opened Scheduler

  // ---- The active count ----

  /** Between taking an entry and the matching decrement. */
  predicate Active(pc: Pc) {
    pc.Taken? || pc.Discarding? || pc.Running? || pc.Back?
  }

  function CountActive(ws: seq<Worker>): nat {
    if ws == [] then 0 else (if Active(ws[0].pc) then 1 else 0) + CountActive(ws[1..])
  }

  lemma {:induction false} CountUpdate(ws: seq<Worker>, w: nat, x: Worker)
    requires w < |ws|
    ensures CountActive(ws[w := x])
            == CountActive(ws) - (if Active(ws[w].pc) then 1 else 0) + (if Active(x.pc) then 1 else 0)
  {
    if w == 0 {
      assert ws[w := x][1..] == ws[1..];
    } else {
      assert ws[w := x][1..] == ws[1..][w - 1 := x];
      CountUpdate(ws[1..], w - 1, x);
    }
  }

  lemma {:induction false} NoneActive(ws: seq<Worker>)
    requires forall w <- ws :: !Active(w.pc)
    ensures CountActive(ws) == 0
  {
    if ws != [] {
      NoneActive(ws[1..]);
    }
  }

  // ---- No task left behind ----

  /** On the way out for good. */
  predicate Committed(w: Worker) {
    w.pc == Left || (w.pc == Nothing && w.idle == Term)
  }

  ghost predicate SomeoneRuns(s: State, f: nat) {
    exists w: nat :: w < |s.workers| && s.workers[w].pc.Running? && s.workers[w].pc.fiber == f
  }

  ghost predicate SomeoneStays(s: State) {
    exists w: nat :: w < |s.workers| && !Committed(s.workers[w])
  }

  ghost predicate Unpinned(s: State) {
    exists i: nat :: i < |s.queue| && s.queue[i].pin == None
  }

  ghost predicate Invariant(s: State) {
    && s.active == CountActive(s.workers)
    && |s.workers| > 0
    && (forall w: nat :: w < |s.workers| && (s.workers[w].idle == Term || s.workers[w].pc == Left) ==>
          s.stopping && s.autostop)
    && (forall f :: s.Of(f) == Exec ==> SomeoneRuns(s, f))
    && (Unpinned(s) ==> SomeoneStays(s))
  }

  lemma InitialInvariant(s: State)
    requires Initial(s)
    ensures Invariant(s)
  {
    NoneActive(s.workers);
    assert !Committed(s.workers[0]);
  }

  /** A step of worker w that leaves the fibers' EXEC states to workers still running them. */
  lemma RunnersKept(s: State, s': State, w: nat)
    requires w < |s.workers| == |s'.workers|
    requires forall v: nat :: v < |s.workers| && v != w ==> s'.workers[v] == s.workers[v]
    requires forall f :: s.Of(f) == Exec ==> SomeoneRuns(s, f)
    requires forall f :: s'.Of(f) == Exec && s.Of(f) != Exec ==>
      s'.workers[w].pc.Running? && s'.workers[w].pc.fiber == f
    requires s.workers[w].pc.Running? ==> s'.Of(s.workers[w].pc.fiber) != Exec || s'.workers[w] == s.workers[w]
    ensures forall f :: s'.Of(f) == Exec ==> SomeoneRuns(s', f)
  {
    forall f | s'.Of(f) == Exec
      ensures SomeoneRuns(s', f)
    {
      if s.Of(f) == Exec {
        var v: nat :| v < |s.workers| && s.workers[v].pc.Running? && s.workers[v].pc.fiber == f;
        assert s'.workers[v] == s.workers[v];
      }
    }
  }

  /** Worker w itself does not commit in this step. */
  lemma StayerKept(s': State, w: nat)
    requires w < |s'.workers| && !Committed(s'.workers[w])
    ensures SomeoneStays(s')
  {
  }

  lemma ScanKeeps(s: State, w: nat)
    requires Invariant(s) && Enabled(s, Scan(w))
    ensures Invariant(Step(s, Scan(w)))
  {
    var s' := Step(s, Scan(w));
    CountUpdate(s.workers, w, s'.workers[w]);
    RunnersKept(s, s', w);
    if Unpinned(s') {
      match FirstRunnable(s, w, 0)
      case Some(_) => StayerKept(s', w);
      case None =>
        // whatever unpinned entry was passed over is of a fiber some other worker is running
        var i: nat :| i < |s.queue| && s.queue[i].pin == None;
        assert Skipped(s, s.queue[i], w);
        var f := s.queue[i].work.fiber;
        var v: nat :| v < |s.workers| && s.workers[v].pc.Running? && s.workers[v].pc.fiber == f;
        assert s'.workers[v] == s.workers[v];
        StayerKept(s', v);
    }
  }

  /** s' is s after a step of worker w that keeps the fibers' EXEC states to workers running
      them, and either leaves w uncommitted or the queue alone. */
  ghost predicate WorkerStep(s: State, s': State, w: nat) {
    && w < |s.workers| == |s'.workers| && s'.workers == s.workers[w := s'.workers[w]]
    && s'.active == s.active + (if Active(s'.workers[w].pc) then 1 else 0) - (if Active(s.workers[w].pc) then 1 else 0)
    && s'.stopping == s.stopping && s'.autostop == s.autostop
    && (s'.workers[w].idle == Term || s'.workers[w].pc == Left ==> s.stopping && s.autostop)
    && (forall f :: s'.Of(f) == Exec && s.Of(f) != Exec ==> s'.workers[w].pc.Running? && s'.workers[w].pc.fiber == f)
    && (s.workers[w].pc.Running? ==> s'.Of(s.workers[w].pc.fiber) != Exec || s'.workers[w] == s.workers[w])
    && (!Committed(s'.workers[w]) || (Committed(s.workers[w]) && s'.queue == s.queue))
  }

  lemma WorkerStepKeeps(s: State, s': State, w: nat)
    requires Invariant(s) && WorkerStep(s, s', w)
    ensures Invariant(s')
  {
    CountUpdate(s.workers, w, s'.workers[w]);
    RunnersKept(s, s', w);
    if Unpinned(s') {
      if !Committed(s'.workers[w]) {
        StayerKept(s', w);
      } else {
        assert Unpinned(s);
        var v: nat :| v < |s.workers| && !Committed(s.workers[v]);
        assert s'.workers[v] == s.workers[v];
        StayerKept(s', v);
      }
    }
  }

  lemma BeginKeeps(s: State, w: nat)
    requires Invariant(s) && Enabled(s, Begin(w))
    ensures Invariant(Step(s, Begin(w)))
  {
    var s' := Step(s, Begin(w));
    if s'.aborted {
      AbortKeeps(s, s');
    } else {
      BeginIsWorkerStep(s, w);
      WorkerStepKeeps(s, s', w);
    }
  }

  lemma AbortKeeps(s: State, s': State)
    requires Invariant(s) && s' == s.(aborted := true)
    ensures Invariant(s')
  {
    SameQueue(s, s');
    assert forall f :: s'.Of(f) == s.Of(f);
    RunnersKept(s, s', 0);
  }

  lemma BeginIsWorkerStep(s: State, w: nat)
    requires Invariant(s) && Enabled(s, Begin(w)) && !Step(s, Begin(w)).aborted
    ensures WorkerStep(s, Step(s, Begin(w)), w)
  {
    var s' := Step(s, Begin(w));
    match s.workers[w].pc.work
    case FiberWork(f) =>
      assert s'.workers[w].pc == if Dead(s.Of(f)) then Discarding else Running(f, false, s.Of(f) != Blank);
    case Callback(_) =>
      assert s'.workers[w].pc.Running?;
  }

  lemma SettleIsWorkerStep(s: State, w: nat)
    requires Invariant(s) && Enabled(s, Settle(w))
    ensures WorkerStep(s, Step(s, Settle(w)), w)
  {
    var s' := Step(s, Settle(w));
    assert s'.workers[w].pc == Scanning && s'.workers[w].idle == s.workers[w].idle;
    assert s'.workers == s.workers[w := s'.workers[w]];
    if s.Of(s.workers[w].pc.fiber) == Ready {
      assert forall f :: s'.Of(f) == s.Of(f);
    }
  }

  lemma SettleKeeps(s: State, w: nat)
    requires Invariant(s) && Enabled(s, Settle(w))
    ensures Invariant(Step(s, Settle(w)))
  {
    SettleIsWorkerStep(s, w);
    WorkerStepKeeps(s, Step(s, Settle(w)), w);
  }

  /** Into the idle fiber and out of it, and a yield: the steps of a worker that an assertion may end. */
  lemma MoveKeeps(s: State, a: Action)
    requires Invariant(s) && Enabled(s, a)
    requires a.Yield? || a.EnterIdle? || a.IdleCheck? || a.IdleYield?
    ensures Invariant(Step(s, a))
  {
    var s' := Step(s, a);
    if s'.aborted {
      AbortKeeps(s, s');
    } else {
      WorkerStepKeeps(s, s', a.w);
    }
  }

  lemma StepKeeps(s: State, a: Action)
    requires Invariant(s) && Enabled(s, a)
    ensures Invariant(Step(s, a))
  {
    var s' := Step(s, a);
    match a
    case Outside(_) =>
      assert !Committed(s'.workers[0]);
      RunnersKept(s, s', 0);
    case SetAutostop => RunnersKept(s, s', 0); SameQueue(s, s');
    case SetStopping => RunnersKept(s, s', 0); SameQueue(s, s');
    case CallerDecides(w, busy) =>
      CountUpdate(s.workers, w, s'.workers[w]);
      RunnersKept(s, s', w);
      if !s.Stops() || busy {
        StayerKept(s', w);
      }
    case Scan(w) => ScanKeeps(s, w);
    case Push(w, _) =>
      RunnersKept(s, s', w);
      StayerKept(s', w);
    case Begin(w) => BeginKeeps(s, w);
    case Yield(_, _) => MoveKeeps(s, a);
    case Book(w) => WorkerStepKeeps(s, s', w);
    case Settle(w) => SettleKeeps(s, w);
    case EnterIdle(_) => MoveKeeps(s, a);
    case IdleCheck(_, _) => MoveKeeps(s, a);
    case IdleYield(_) => MoveKeeps(s, a);
  }

  lemma SameQueue(s: State, s': State)
    requires Invariant(s) && s'.queue == s.queue && s'.workers == s.workers
    ensures Unpinned(s') ==> SomeoneStays(s')
  {
    if Unpinned(s') {
      assert Unpinned(s);
      var v: nat :| v < |s.workers| && !Committed(s.workers[v]);
      StayerKept(s', v);
    }
  }

  lemma {:induction false} RunKeeps(s: State, actions: seq<Action>, s': State)
    requires Invariant(s) && Run(s, actions, s')
    ensures Invariant(s')
    decreases |actions|
  {
    if actions != [] {
      StepKeeps(s, actions[0]);
      RunKeeps(Step(s, actions[0]), actions[1..], s');
    }
  }

  /** In every reachable state the active count is the number of workers between taking an entry
      and the matching decrement. */
  lemma ActiveCountIsRight(s: State, actions: seq<Action>, s': State)
    requires Initial(s) && Run(s, actions, s')
    ensures s'.active == CountActive(s'.workers)
  {
    InitialInvariant(s);
    RunKeeps(s, actions, s');
  }

  /** Drain on stop: in every interleaving, once all workers have left run() every task still
      queued is pinned to a thread, and nothing is half done. */
  lemma DrainOnStop(s: State, actions: seq<Action>, s': State)
    requires Initial(s) && Run(s, actions, s')
    requires forall w <- s'.workers :: w.pc == Left
    ensures forall e <- s'.queue :: e.pin.Some?
    ensures s'.active == 0 && s'.stopping && s'.autostop
  {
    InitialInvariant(s);
    RunKeeps(s, actions, s');
    assert !SomeoneStays(s');
    assert !Unpinned(s');
    NoneActive(s'.workers);
    assert s'.workers[0].pc == Left;
  }
}
