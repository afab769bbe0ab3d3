/** Stopping: a worker leaves only when everything is done, and when everything is done all of them can
    do nothing but leave.
 */
module SchedulerStop {
  import opened Options
  import opened Scheduler
  import Drain = SchedulerDrain

  /** stop() was called, nothing is queued, and no worker is between taking an entry and the matching
      decrement. */
  ghost predicate AllDone(s: State) {
    s.stopping && s.autostop && s.queue == [] && NoneActive(s)
  }

  ghost predicate NoneActive(s: State) {
    forall w <- s.workers :: !Drain.Active(w.pc)
  }

  lemma {:induction false} CountIsZero(ws: seq<Worker>)
    ensures Drain.CountActive(ws) == 0 <==> forall w <- ws :: !Drain.Active(w.pc)
  {
    if ws != [] {
      CountIsZero(ws[1..]);
      assert forall w :: w in ws <==> w == ws[0] || w in ws[1..];
    }
  }

  lemma StopsIff(s: State)
    requires Drain.Invariant(s)
    ensures s.Stops() <==> AllDone(s)
  {
    CountIsZero(s.workers);
  }

  lemma ReachableIs(s0: State, actions: seq<Action>, s: State)
    requires Initial(s0) && Run(s0, actions, s)
    ensures Drain.Invariant(s)
  {
    Drain.InitialInvariant(s0);
    Drain.RunKeeps(s0, actions, s);
  }

  // ---- Who leaves ----

  /** In every reachable state: an idle fiber that looks whether to stop ends exactly if all is done and
      nothing else keeps it; so does the caller's thread, which otherwise goes to work. */
  lemma StopDecisions(s0: State, actions: seq<Action>, s: State, w: nat, busy: bool)
    requires Initial(s0) && Run(s0, actions, s)
    ensures Enabled(s, IdleCheck(w, busy)) ==>
      (Step(s, IdleCheck(w, busy)).workers[w].idle == Term <==> AllDone(s) && !busy)
    ensures Enabled(s, CallerDecides(w, busy)) ==>
      Step(s, CallerDecides(w, busy)).workers[w].pc == if AllDone(s) && !busy then Left else Scanning
  {
    ReachableIs(s0, actions, s);
    StopsIff(s);
    IdleOkReachable(s0, actions, s);
    assert w < |s.workers| ==> IdleOk(s, w);
  }

  predicate IsMove(a: Action) {
    !a.Outside? && !a.SetAutostop? && !a.SetStopping?
  }

  lemma BeginStays(s: State, w: nat)
    requires Enabled(s, Begin(w))
    ensures var s' := Step(s, Begin(w));
      && s'.workers == s.workers[w := s'.workers[w]] && s'.workers[w].idle == s.workers[w].idle
      && (s'.workers[w].pc.Taken? || s'.workers[w].pc.Running? || s'.workers[w].pc == Discarding)
  {
    var s' := Step(s, Begin(w));
    match s.workers[w].pc.work
    case FiberWork(f) => assert s'.aborted ==> s'.workers == s.workers;
    case Callback(_) => assert s'.aborted ==> s'.workers == s.workers;
  }

  lemma SettleStays(s: State, w: nat)
    requires Enabled(s, Settle(w))
    ensures var s' := Step(s, Settle(w));
      && s'.workers == s.workers[w := s'.workers[w]] && s'.workers[w].idle == s.workers[w].idle
      && s'.workers[w].pc == Scanning
  {
  }

  /** A step moves no worker but its own, */
  lemma OthersStay(s: State, a: Action)
    requires Enabled(s, a)
    ensures if IsMove(a) then Step(s, a).workers == s.workers[a.w := Step(s, a).workers[a.w]]
            else Step(s, a).workers == s.workers
  {
    match a
    case Begin(w) => BeginStays(s, w);
    case Settle(w) => SettleStays(s, w);
    case _ =>
  }

  /** and touches an idle fiber only when its worker is not at work. */
  lemma MoverStays(s: State, a: Action)
    requires Enabled(s, a) && IsMove(a)
    ensures |Step(s, a).workers| == |s.workers|
    ensures a.EnterIdle? || a.IdleCheck? || a.IdleYield? || a.CallerDecides? || (
      && Step(s, a).workers[a.w].idle == s.workers[a.w].idle
      && (var pc := Step(s, a).workers[a.w].pc; pc != Left && pc != Idling && (pc == Polling ==> a.Push?)))
    ensures s.workers[a.w].pc == Idling || s.workers[a.w].pc == Polling ==> a.IdleCheck? || a.IdleYield? || a.Push?
  {
    match a
    case Begin(w) => BeginStays(s, w);
    case Settle(w) => SettleStays(s, w);
    case _ =>
  }

  /** Between two visits an idle fiber is HOLD. */
  lemma IdleHolds(s: State, a: Action)
    requires Enabled(s, a) && IsMove(a) && s.workers[a.w].idle == Exec
    ensures |Step(s, a).workers| == |s.workers|
    ensures var idle := Step(s, a).workers[a.w].idle;
      && (a.IdleYield? ==> idle == Hold)
      && (a.IdleCheck? ==> idle == Exec || idle == Term)
      && (!a.IdleYield? && !a.IdleCheck? ==> idle == Exec)
  {
    MoverStays(s, a);
  }

  lemma MoverLeaves(s: State, a: Action)
    requires Enabled(s, a) && IsMove(a)
    ensures |Step(s, a).workers| == |s.workers|
    ensures var before := s.workers[a.w]; var after := Step(s, a).workers[a.w];
      && (before.idle != Term && after.idle == Term ==> a.IdleCheck? && !a.busy && s.Stops())
      && (before.pc != Left && after.pc == Left ==>
            (a.EnterIdle? && before.idle == Term) || (a.CallerDecides? && !a.busy && s.Stops()))
      && (a.EnterIdle? ==> (after.pc == Left <==> before.idle == Term))
  {
    MoverStays(s, a);
  }

  /** No other step ends an idle fiber, and none but entering an ended one, or the caller's decision, takes
      a worker out. */
  lemma LeavesOnlyWhenDone(s0: State, actions: seq<Action>, s: State, a: Action, w: nat)
    requires Initial(s0) && Run(s0, actions, s) && Enabled(s, a) && w < |s.workers|
    ensures |Step(s, a).workers| == |s.workers|
    ensures var before := s.workers[w]; var after := Step(s, a).workers[w];
      && (before.idle != Term && after.idle == Term ==> a == IdleCheck(w, false) && AllDone(s))
      && (before.pc != Left && after.pc == Left ==>
            || (a == EnterIdle(w) && before.idle == Term)
            || (a == CallerDecides(w, false) && AllDone(s)))
      && (a == EnterIdle(w) ==> (after.pc == Left <==> before.idle == Term))
  {
    ReachableIs(s0, actions, s);
    StopsIff(s);
    OthersStay(s, a);
    if IsMove(a) {
      MoverLeaves(s, a);
    }
  }

  // ---- An idle fiber is EXEC while its worker is in it ----

  predicate IdleOk(s: State, w: nat) {
    w < |s.workers| ==> (s.workers[w].pc == Idling || s.workers[w].pc == Polling <==> s.workers[w].idle == Exec)
  }

  lemma IdleOkStep(s: State, a: Action, w: nat)
    requires Enabled(s, a) && IdleOk(s, w)
    ensures IdleOk(Step(s, a), w)
  {
    OthersStay(s, a);
    if IsMove(a) {
      MoverStays(s, a);
    }
  }

  lemma {:induction false} IdleOkRun(s: State, actions: seq<Action>, s': State, w: nat)
    requires IdleOk(s, w) && Run(s, actions, s')
    ensures IdleOk(s', w)
    decreases |actions|
  {
    if actions != [] {
      IdleOkStep(s, actions[0], w);
      IdleOkRun(Step(s, actions[0]), actions[1..], s', w);
    }
  }

  lemma IdleOkReachable(s0: State, actions: seq<Action>, s: State)
    requires Initial(s0) && Run(s0, actions, s)
    ensures forall w: nat :: IdleOk(s, w)
  {
    forall w: nat ensures IdleOk(s, w) {
      assert w < |s0.workers| ==> s0.workers[w] in s0.workers;
      IdleOkRun(s0, actions, s, w);
    }
  }

  // ---- All of them leave ----

  /** A worker's own step: nothing is scheduled, and nothing but the scheduler keeps it from stopping. */
  predicate OwnStep(a: Action) {
    match a
    case Outside(_) => false
    case Push(_, _) => false
    case SetAutostop => false
    case SetStopping => false
    case IdleCheck(_, busy) => !busy
    case CallerDecides(_, busy) => !busy
    case _ => true
  }

  ghost predicate OwnRun(s: State, actions: seq<Action>, s': State) {
    Run(s, actions, s') && forall a <- actions :: OwnStep(a)
  }

  ghost predicate AllLeft(s: State) {
    forall w <- s.workers :: w.pc == Left
  }

  /** What every reachable state is. */
  ghost predicate Sound(s: State) {
    !s.aborted && Drain.Invariant(s) && forall w: nat :: IdleOk(s, w)
  }

  ghost predicate NoneBooked(s: State) {
    forall w <- s.workers :: !w.pc.Booked?
  }

  /** All is done, and every worker has looked at how its fiber came back. */
  ghost predicate Still(s: State) {
    Sound(s) && AllDone(s) && NoneBooked(s)
  }

  /** How many steps a worker is from leaving, at most. */
  function Distance(w: Worker): nat {
    match w.pc
    case Left => 0
    case Nothing => if w.idle == Term then 1 else 4
    case Scanning => if w.idle == Term then 2 else 5
    case Idling => 3
    case Polling => 6
    case _ => 7
  }

  function DistanceAll(ws: seq<Worker>): (d: nat)
    ensures d <= 7 * |ws|
  {
    if ws == [] then 0 else DistanceAll(ws[..|ws| - 1]) + Distance(ws[|ws| - 1])
  }

  lemma {:induction false} Nearer(ws: seq<Worker>, w: nat, x: Worker)
    requires w < |ws|
    ensures DistanceAll(ws[w := x]) == DistanceAll(ws) - Distance(ws[w]) + Distance(x)
    decreases |ws|
  {
    var n := |ws| - 1;
    if w == n {
      assert ws[w := x][..n] == ws[..n];
    } else {
      Nearer(ws[..n], w, x);
      assert ws[w := x][..n] == ws[..n][w := x];
    }
  }

  lemma MoveNearer(s: State, a: Action)
    requires Still(s) && Enabled(s, a) && OwnStep(a)
    ensures var s' := Step(s, a); var after := s'.workers[a.w];
      && Distance(after) < Distance(s.workers[a.w]) && !Drain.Active(after.pc) && !after.pc.Booked?
      && s'.queue == [] && !s'.aborted && s'.stopping && s'.autostop
  {
    StopsIff(s);
    assert s.workers[a.w] in s.workers && IdleOk(s, a.w);
  }

  /** Once all is still, every step of a worker's own brings it nearer to leaving, and all stays still. */
  lemma StepNearer(s: State, a: Action)
    requires Still(s) && Enabled(s, a) && OwnStep(a)
    ensures Still(Step(s, a))
    ensures DistanceAll(Step(s, a).workers) < DistanceAll(s.workers)
  {
    var s' := Step(s, a);
    StopsIff(s);
    var w: nat := a.w;
    OthersStay(s, a);
    MoveNearer(s, a);
    Nearer(s.workers, w, s'.workers[w]);
    Drain.StepKeeps(s, a);
    forall v: nat ensures IdleOk(s', v) {
      assert IdleOk(s, v);
      IdleOkStep(s, a, v);
    }
  }

  /** As long as a worker is there, it can do something. */
  lemma SomethingToDo(s: State)
    requires Still(s)
    ensures AllLeft(s) <==> forall a :: OwnStep(a) ==> !Enabled(s, a)
  {
    forall w: nat | w < |s.workers| && s.workers[w].pc != Left ensures exists a :: OwnStep(a) && Enabled(s, a) {
      assert s.workers[w] in s.workers;
      var a := match s.workers[w].pc
        case NotStarted => CallerDecides(w, false)
        case Scanning => Scan(w)
        case Nothing => EnterIdle(w)
        case Idling => IdleCheck(w, false)
        case _ => IdleYield(w);
      assert OwnStep(a) && Enabled(s, a);
    }
    if AllLeft(s) {
      forall a | OwnStep(a) ensures !Enabled(s, a) {
        assert a.w < |s.workers| ==> s.workers[a.w] in s.workers;
      }
    }
  }

  /** Once all is done and looked at, every run of the workers' own steps is over after at most seven steps
      a worker, and it is over exactly when all have left. */
  lemma EveryoneLeaves(s: State, actions: seq<Action>, s': State)
    requires Still(s) && OwnRun(s, actions, s')
    ensures |actions| <= 7 * |s.workers|
    ensures AllLeft(s') <==> forall a :: OwnStep(a) ==> !Enabled(s', a)
  {
    StillRun(s, actions, s');
    SomethingToDo(s');
  }

  lemma {:induction false} StillRun(s: State, actions: seq<Action>, s': State)
    requires Still(s) && OwnRun(s, actions, s')
    ensures Still(s') && |actions| + DistanceAll(s'.workers) <= DistanceAll(s.workers)
    decreases |actions|
  {
    if actions != [] {
      assert actions[0] in actions;
      StepNearer(s, actions[0]);
      forall a | a in actions[1..] ensures OwnStep(a) {
        assert a in actions;
      }
      StillRun(Step(s, actions[0]), actions[1..], s');
    }
  }

  // ---- ... and before it is looked at ----

  /** The workers' own steps can take them all out. */
  ghost predicate CanEnd(s: State) {
    exists actions, s' :: OwnRun(s, actions, s') && AllLeft(s')
  }

  lemma StepToEnd(s: State, a: Action)
    requires Enabled(s, a) && OwnStep(a) && CanEnd(Step(s, a))
    ensures CanEnd(s)
  {
    var actions, s' :| OwnRun(Step(s, a), actions, s') && AllLeft(s');
    assert ([a] + actions)[1..] == actions;
    assert OwnRun(s, [a] + actions, s');
  }

  lemma {:induction false} StillCanEnd(s: State)
    requires Still(s)
    ensures CanEnd(s)
    decreases DistanceAll(s.workers)
  {
    SomethingToDo(s);
    if AllLeft(s) {
      assert OwnRun(s, [], s);
    } else {
      var a :| OwnStep(a) && Enabled(s, a);
      StepNearer(s, a);
      StillCanEnd(Step(s, a));
      StepToEnd(s, a);
    }
  }

  lemma SoundStep(s: State, a: Action)
    requires Sound(s) && Enabled(s, a) && !Step(s, a).aborted
    ensures Sound(Step(s, a))
  {
    Drain.StepKeeps(s, a);
    forall v: nat ensures IdleOk(Step(s, a), v) {
      assert IdleOk(s, v);
      IdleOkStep(s, a, v);
    }
  }

  /** After stop(), nobody at work, and queued at most what workers have put back. */
  ghost predicate Quiescent(s: State) {
    && Sound(s) && s.stopping && s.autostop && NoneActive(s)
    && forall e <- s.queue :: e.work.FiberWork? && e.pin == None
  }

  /** One turn of worker w with the first entry: it is gone, and w is back. */
  lemma Turn(s: State, w: nat) returns (s': State)
    requires Quiescent(s) && NoneBooked(s) && w < |s.workers| && s.workers[w].pc == Scanning && s.queue != []
    ensures Quiescent(s') && NoneBooked(s') && |s'.workers| == |s.workers| && s'.workers[w].pc == Scanning
    ensures |s'.queue| < |s.queue|
    ensures CanEnd(s') ==> CanEnd(s)
  {
    var f := s.queue[0].work.fiber;
    NobodyRuns(s);
    assert !Skipped(s, s.queue[0], w);
    var s1 := Step(s, Scan(w));
    assert s1.workers == s.workers[w := s.workers[w].(pc := Taken(FiberWork(f)))] && s1.queue == s.queue[1..];
    SoundStep(s, Scan(w));
    s' := TurnTaken(s1, w, f);
    if CanEnd(s') {
      StepToEnd(s, Scan(w));
    }
  }

  lemma NobodyRuns(s: State)
    requires Sound(s) && NoneActive(s)
    ensures forall f :: s.Of(f) != Exec
  {
    forall v: nat | v < |s.workers| ensures !s.workers[v].pc.Running? {
      assert s.workers[v] in s.workers;
    }
    assert forall f :: s.Of(f) == Exec ==> Drain.SomeoneRuns(s, f);
  }

  /** Only worker w is at work. */
  ghost predicate OnlyAtWork(s: State, w: nat) {
    && Sound(s) && s.stopping && s.autostop && w < |s.workers|
    && (forall v :: 0 <= v < |s.workers| && v != w ==>
          !Drain.Active(s.workers[v].pc) && !s.workers[v].pc.Booked?)
    && forall e <- s.queue :: e.work.FiberWork? && e.pin == None
  }

  lemma TurnTaken(s: State, w: nat, f: nat) returns (s': State)
    requires OnlyAtWork(s, w) && s.workers[w].pc == Taken(FiberWork(f)) && s.Of(f) != Exec
    ensures Quiescent(s') && NoneBooked(s') && |s'.workers| == |s.workers| && s'.workers[w].pc == Scanning
    ensures s'.queue == s.queue && (CanEnd(s') ==> CanEnd(s))
  {
    var s1 := Step(s, Begin(w));
    SoundStep(s, Begin(w));
    var s2 := s1;
    if s1.workers[w].pc.Running? {
      SoundStep(s1, Yield(w, Except));
      s2 := Step(s1, Yield(w, Except));
    }
    s' := TurnBack(s2, w);
    if CanEnd(s') {
      if s1.workers[w].pc.Running? {
        StepToEnd(s1, Yield(w, Except));
      }
      StepToEnd(s, Begin(w));
    }
  }

  lemma TurnBack(s: State, w: nat) returns (s': State)
    requires OnlyAtWork(s, w)
    requires s.workers[w].pc == Discarding || (s.workers[w].pc.Back? && Dead(s.Of(s.workers[w].pc.fiber)))
    ensures Quiescent(s') && NoneBooked(s') && |s'.workers| == |s.workers| && s'.workers[w].pc == Scanning
    ensures s'.queue == s.queue && (CanEnd(s') ==> CanEnd(s))
  {
    SoundStep(s, Book(w));
    var s1 := Step(s, Book(w));
    s' := s1;
    if s1.workers[w].pc.Booked? {
      SoundStep(s1, Settle(w));
      s' := Step(s1, Settle(w));
    }
    if CanEnd(s') {
      if s1.workers[w].pc.Booked? {
        StepToEnd(s1, Settle(w));
      }
      StepToEnd(s, Book(w));
    }
  }

  /** One worker runs down what was put back. */
  lemma {:induction false} RunDown(s: State, w: nat)
    requires Quiescent(s) && NoneBooked(s)
    requires s.queue != [] ==> w < |s.workers| && s.workers[w].pc == Scanning
    ensures CanEnd(s)
    decreases |s.queue|
  {
    if s.queue == [] {
      StillCanEnd(s);
    } else {
      var s' := Turn(s, w);
      RunDown(s', w);
    }
  }

  lemma Looked(s: State, v: nat)
    requires Quiescent(s) && v < |s.workers| && s.workers[v].pc.Booked?
    ensures var s' := Step(s, Settle(v));
      && Quiescent(s') && |s'.workers| == |s.workers| && s'.workers[v].pc == Scanning
      && DistanceAll(s'.workers) < DistanceAll(s.workers)
  {
    var s' := Step(s, Settle(v));
    SoundStep(s, Settle(v));
    assert s'.workers == s.workers[v := s'.workers[v]] && s'.workers[v].pc == Scanning;
    Nearer(s.workers, v, s'.workers[v]);
  }

  /** The workers that have not looked yet do so, one after the other. */
  lemma {:induction false} LookAll(s: State, w: nat)
    requires Quiescent(s)
    requires s.queue != [] ==> w < |s.workers| && s.workers[w].pc == Scanning
    ensures CanEnd(s)
    decreases DistanceAll(s.workers)
  {
    if x :| x in s.workers && x.pc.Booked? {
      var v: nat :| v < |s.workers| && s.workers[v] == x;
      Looked(s, v);
      LookAll(Step(s, Settle(v)), v);
      StepToEnd(s, Settle(v));
    } else {
      RunDown(s, w);
    }
  }

  /** From every reachable state in which stop() was called, nothing is queued and nobody is at work, the
      workers' own steps can take all of them out, whatever they are about to put back. */
  lemma StopCanEnd(s0: State, actions: seq<Action>, s: State)
    requires Initial(s0) && Run(s0, actions, s) && !s.aborted && AllDone(s)
    ensures CanEnd(s)
  {
    ReachableIs(s0, actions, s);
    IdleOkReachable(s0, actions, s);
    LookAll(s, 0);
  }

  /** ... and if nobody has to look any more, they cannot do anything but leave. */
  lemma StopMustEnd(s0: State, actions: seq<Action>, s: State, own: seq<Action>, s': State)
    requires Initial(s0) && Run(s0, actions, s) && !s.aborted && AllDone(s) && NoneBooked(s) && OwnRun(s, own, s')
    ensures |own| <= 7 * |s.workers|
    ensures AllLeft(s') <==> forall a :: OwnStep(a) ==> !Enabled(s', a)
  {
    ReachableIs(s0, actions, s);
    IdleOkReachable(s0, actions, s);
    EveryoneLeaves(s, own, s');
  }

  /** stop(), called when nothing is queued and nobody is at work, can end the whole scheduler. */
  lemma CallingStop(s0: State, actions: seq<Action>, s: State)
    requires Initial(s0) && Run(s0, actions, s) && !s.aborted && s.queue == [] && NoneActive(s)
    ensures Enabled(s, SetAutostop) && Enabled(Step(s, SetAutostop), SetStopping)
    ensures CanEnd(Step(Step(s, SetAutostop), SetStopping))
  {
    ReachableIs(s0, actions, s);
    IdleOkReachable(s0, actions, s);
    var s1 := Step(s, SetAutostop);
    var s2 := Step(s1, SetStopping);
    SoundStep(s, SetAutostop);
    SoundStep(s1, SetStopping);
    LookAll(s2, 0);
  }

  // ---- Work is done ----

  /** In every reachable state, before stop() or after, a worker that has begun and not left can go on. */
  lemma NoDeadlock(s0: State, actions: seq<Action>, s: State, w: nat)
    requires Initial(s0) && Run(s0, actions, s) && !s.aborted && w < |s.workers|
    ensures s.workers[w].pc != Left && s.workers[w].pc != NotStarted ==>
      exists a :: OwnStep(a) && a.w == w && Enabled(s, a)
  {
    match s.workers[w].pc
    case Scanning => assert OwnStep(Scan(w)) && Enabled(s, Scan(w));
    case Taken(_) => assert OwnStep(Begin(w)) && Enabled(s, Begin(w));
    case Discarding => assert OwnStep(Book(w)) && Enabled(s, Book(w));
    case Running(_, _, _) => assert OwnStep(Yield(w, Except)) && Enabled(s, Yield(w, Except));
    case Back(_, _, _) => assert OwnStep(Book(w)) && Enabled(s, Book(w));
    case Booked(_, _, _) => assert OwnStep(Settle(w)) && Enabled(s, Settle(w));
    case Nothing => assert OwnStep(EnterIdle(w)) && Enabled(s, EnterIdle(w));
    case Idling => assert OwnStep(IdleCheck(w, false)) && Enabled(s, IdleCheck(w, false));
    case Polling => assert OwnStep(IdleYield(w)) && Enabled(s, IdleYield(w));
    case _ =>
  }

  /** Until stop() anything that exists may be scheduled, and goes behind what is queued. A worker that takes
      it runs it: a fiber that has not ended and is not running goes on, a callback gets the worker's cb_fiber. */
  lemma TaskRuns(s: State, e: Entry, w: nat) returns (s': State)
    requires !s.aborted && !s.autostop && Exists(s, e) && s.queue == []
    requires w < |s.workers| && s.workers[w].pc == Scanning && (e.pin == None || e.pin == Some(w))
    requires e.work.FiberWork? ==> !Dead(s.Of(e.work.fiber)) && s.Of(e.work.fiber) != Exec
    requires e.work.Callback? && s.workers[w].cbFiber.Some? ==> Resettable(s.Of(s.workers[w].cbFiber.value))
    ensures Run(s, [Outside(e), Scan(w), Begin(w)], s') && !s'.aborted && s'.queue == []
    ensures w < |s'.workers| && s'.workers[w].pc.Running? && s'.Of(s'.workers[w].pc.fiber) == Exec
    ensures e.work.FiberWork? ==> s'.workers[w].pc.fiber == e.work.fiber && !s'.workers[w].pc.own
    ensures e.work.Callback? ==> s'.workers[w].pc.own && s'.workers[w].cbFiber == Some(s'.workers[w].pc.fiber)
  {
    var s1 := Step(s, Outside(e));
    assert s1.queue == [e] && s1.fibers == s.fibers;
    assert !Skipped(s1, s1.queue[0], w);
    var s2 := Step(s1, Scan(w));
    assert s2.workers[w].pc == Taken(e.work) && s2.queue == [];
    s' := Step(s2, Begin(w));
    ThreeSteps(s, Outside(e), Scan(w), Begin(w));
  }

  /** A fiber may schedule anything that exists, and so may an idle fiber that is not to stop, also after
      stop(); it goes behind what is queued, and nothing else changes. */
  lemma MayPush(s: State, w: nat, e: Entry)
    requires !s.aborted && w < |s.workers| && Exists(s, e)
    requires s.workers[w].pc == Polling || (s.workers[w].pc.Running? && s.workers[w].pc.body)
    ensures Enabled(s, Push(w, e)) && Step(s, Push(w, e)) == s.(queue := s.queue + [e])
  {
  }

  lemma ThreeSteps(s: State, a: Action, b: Action, c: Action)
    requires Enabled(s, a) && Enabled(Step(s, a), b) && Enabled(Step(Step(s, a), b), c)
    ensures Run(s, [a, b, c], Step(Step(Step(s, a), b), c))
  {
    assert [a, b, c][1..] == [b, c] && [b, c][1..] == [c] && [c][1..] == [];
    assert Run(Step(Step(s, a), b), [c], Step(Step(Step(s, a), b), c));
    assert Run(Step(s, a), [b, c], Step(Step(Step(s, a), b), c));
  }
}
