/** When the assertions in Fiber::reset, swapIn and the yields cannot fire: as long as no worker takes up a
    fiber, as a queue entry or as its cb_fiber, that another worker is not done with. Fibers that have
    ended may be shared, as taking them up comes to nothing.
 */
module SchedulerLegality {
  import opened Options
  import opened Scheduler

  function PcFiber(pc: Pc): Option<nat> {
    match pc
    case Taken(FiberWork(f)) => Some(f)
    case Running(f, _, _) => Some(f)
    case Back(f, _, _) => Some(f)
    case Booked(f, _, _) => Some(f)
    case _ => None
  }

  /** About to reset its cb_fiber for a callback. */
  predicate Calling(w: Worker) {
    w.pc.Taken? && w.pc.work.Callback?
  }

  /** From taking it up to having looked at how it came back. */
  predicate Uses(w: Worker, f: nat) {
    PcFiber(w.pc) == Some(f) || (Calling(w) && w.cbFiber == Some(f))
  }

  predicate TookFiber(w: Worker, f: nat) {
    w.pc == Taken(FiberWork(f))
  }

  /** Back from its cb_fiber, which it resets if it ended. */
  predicate Owner(w: Worker, f: nat) {
    (w.pc.Back? || w.pc.Booked?) && w.pc.fiber == f && w.pc.own
  }

  // ---- The discipline ----

  predicate UsedByOther(s: State, w: nat, f: nat) {
    exists v :: 0 <= v < |s.workers| && v != w && Uses(s.workers[v], f)
  }

  /** A queue entry may be taken if no other worker uses its fiber; or if the fiber has ended and neither
      is about to be reset for a callback nor, with a third worker waiting to run it, by its owner. */
  predicate MayTake(s: State, w: nat, f: nat) {
    && (forall v :: 0 <= v < |s.workers| && v != w && Uses(s.workers[v], f) ==>
          Dead(s.Of(f)) && !Calling(s.workers[v]))
    && (forall u, v :: 0 <= u < |s.workers| && 0 <= v < |s.workers| && u != w && v != w ==>
          !(TookFiber(s.workers[u], f) && Owner(s.workers[v], f)))
  }

  /** A callback may be taken if the worker's cb_fiber can be reset and nobody else uses it. */
  predicate MayCall(s: State, w: nat)
    requires w < |s.workers|
  {
    s.workers[w].cbFiber.Some? ==>
      Resettable(s.Of(s.workers[w].cbFiber.value)) && !UsedByOther(s, w, s.workers[w].cbFiber.value)
  }

  predicate CarefulScan(s: State, w: nat)
    requires w < |s.workers|
  {
    match FirstRunnable(s, w, 0)
    case None => true
    case Some(i) =>
      match s.queue[i].work
      case FiberWork(f) => MayTake(s, w, f)
      case Callback(_) => MayCall(s, w)
  }

  predicate Careful(s: State, a: Action) {
    a.Scan? && a.w < |s.workers| ==> CarefulScan(s, a.w)
  }

  // ---- What careful runs keep ----

  /** What a worker may rely on about the fiber it uses. */
  predicate WorkerOk(s: State, w: Worker) {
    && (match w.pc
        case Taken(FiberWork(f)) => s.Of(f) != Exec
        case Taken(Callback(_)) => w.cbFiber.Some? ==> Resettable(s.Of(w.cbFiber.value))
        case Running(f, own, _) => s.Of(f) == Exec && (own ==> w.cbFiber == Some(f))
        case Back(f, own, out) => BackOk(s, w, f, own, out)
        case Booked(f, own, out) => BackOk(s, w, f, own, out)
        case _ => true)
    && (w.pc == Idling || w.pc == Polling <==> w.idle == Exec)
  }

  predicate BackOk(s: State, w: Worker, f: nat, own: bool, out: FiberState) {
    s.Of(f) == out && out != Init && out != Blank && out != Exec && (own ==> w.cbFiber == Some(f))
  }

  /** Two workers use a fiber only if it has ended and one of them has just taken it from the queue. */
  predicate PairOk(s: State, v: nat, w: nat, f: nat) {
    v < |s.workers| && w < |s.workers| && v != w && Uses(s.workers[v], f) && Uses(s.workers[w], f) ==>
      && Dead(s.Of(f)) && !Calling(s.workers[v]) && !Calling(s.workers[w])
      && (TookFiber(s.workers[v], f) || TookFiber(s.workers[w], f))
  }

  /** With its owner at hand only one. */
  predicate OwnerOk(s: State, u: nat, v: nat, w: nat, f: nat) {
    u < |s.workers| && v < |s.workers| && w < |s.workers| && u != w ==>
      !(TookFiber(s.workers[u], f) && TookFiber(s.workers[w], f) && Owner(s.workers[v], f))
  }

  /** No two workers have the same cb_fiber. */
  predicate CbFibersOk(s: State, v: nat, w: nat) {
    v < |s.workers| && w < |s.workers| && v != w && s.workers[v].cbFiber.Some? ==>
      s.workers[v].cbFiber != s.workers[w].cbFiber
  }

  predicate KnownOk(s: State, w: nat, f: nat) {
    w < |s.workers| && (Uses(s.workers[w], f) || s.workers[w].cbFiber == Some(f)) ==> f < s.nextFiber
  }

  predicate AtOk(s: State, w: nat) {
    w < |s.workers| ==> WorkerOk(s, s.workers[w])
  }

  ghost predicate Legal(s: State) {
    && !s.aborted
    && (forall w: nat :: AtOk(s, w))
    && (forall v: nat, w: nat, f: nat :: PairOk(s, v, w, f))
    && (forall u: nat, v: nat, w: nat, f: nat :: OwnerOk(s, u, v, w, f))
    && (forall v: nat, w: nat :: CbFibersOk(s, v, w))
    && (forall w: nat, f: nat :: KnownOk(s, w, f))
    && (forall e <- s.queue :: Exists(s, e))
  }

  lemma InitialLegal(s: State)
    requires Initial(s)
    ensures Legal(s)
  {
    forall w: nat, f: nat | w < |s.workers| ensures !Uses(s.workers[w], f) && s.workers[w].cbFiber == None {
      assert s.workers[w] in s.workers;
    }
    forall w: nat ensures AtOk(s, w) {
      assert w < |s.workers| ==> s.workers[w] in s.workers;
    }
  }

  /** Only w moved, and the fiber it uses, if any, is used by nobody else. */
  lemma FiberMoved(s: State, s': State, w: nat, f: nat)
    requires Legal(s) && w < |s.workers| == |s'.workers| && !s'.aborted
    requires forall v: nat :: v < |s.workers| && v != w ==> s'.workers[v] == s.workers[v] && !Uses(s.workers[v], f)
    requires forall g :: g != f ==> s'.Of(g) == s.Of(g)
    requires forall g: nat :: Uses(s'.workers[w], g) ==> g == f
    requires WorkerOk(s', s'.workers[w]) && f < s'.nextFiber && s.nextFiber <= s'.nextFiber
    requires s'.workers[w].cbFiber == s.workers[w].cbFiber || s'.workers[w].cbFiber == None
      || (s'.workers[w].cbFiber == Some(f) && f >= s.nextFiber)
    requires forall e <- s'.queue :: Exists(s', e)
    ensures Legal(s')
  {
    forall v: nat ensures AtOk(s', v) {
      assert AtOk(s, v);
      if v < |s.workers| && v != w && Calling(s.workers[v]) && s.workers[v].cbFiber.Some? {
        assert Uses(s.workers[v], s.workers[v].cbFiber.value);
      }
    }
    forall v: nat, x: nat, g: nat ensures PairOk(s', v, x, g) {
      assert PairOk(s, v, x, g);
    }
    forall u: nat, v: nat, x: nat, g: nat ensures OwnerOk(s', u, v, x, g) {
      assert OwnerOk(s, u, v, x, g);
      if
        && u < |s.workers| && v < |s.workers| && x < |s.workers|
        && TookFiber(s'.workers[u], g) && Owner(s'.workers[v], g)
      {
        assert Uses(s'.workers[u], g) && Uses(s'.workers[v], g);
        assert TookFiber(s'.workers[x], g) ==> Uses(s'.workers[x], g);
      }
    }
    forall v: nat, x: nat ensures CbFibersOk(s', v, x) {
      assert CbFibersOk(s, v, x);
      assert KnownOk(s, v, f) && KnownOk(s, x, f);
    }
    forall v: nat, g: nat ensures KnownOk(s', v, g) {
      assert KnownOk(s, v, g);
    }
  }

  /** Only w moved, no fiber changed, and w keeps what it still uses as it was. */
  lemma WorkerMoved(s: State, s': State, w: nat)
    requires Legal(s) && w < |s.workers| == |s'.workers| && !s'.aborted
    requires forall v: nat :: v < |s.workers| && v != w ==> s'.workers[v] == s.workers[v]
    requires s'.fibers == s.fibers && s'.queue == s.queue && s'.nextFiber == s.nextFiber
    requires s'.workers[w].cbFiber == s.workers[w].cbFiber || s'.workers[w].cbFiber == None
    requires !Calling(s'.workers[w])
    requires forall g: nat :: Uses(s'.workers[w], g) ==> Uses(s.workers[w], g) && !TookFiber(s.workers[w], g)
    requires forall g: nat :: Owner(s'.workers[w], g) ==> Owner(s.workers[w], g)
    requires forall g: nat :: !TookFiber(s'.workers[w], g)
    requires WorkerOk(s', s'.workers[w])
    ensures Legal(s')
  {
    forall v: nat ensures AtOk(s', v) {
      assert AtOk(s, v);
    }
    forall v: nat, x: nat, g: nat ensures PairOk(s', v, x, g) {
      assert PairOk(s, v, x, g);
    }
    forall u: nat, v: nat, x: nat, g: nat ensures OwnerOk(s', u, v, x, g) {
      assert OwnerOk(s, u, v, x, g);
    }
    forall v: nat, x: nat ensures CbFibersOk(s', v, x) {
      assert CbFibersOk(s, v, x);
    }
    forall v: nat, g: nat ensures KnownOk(s', v, g) {
      assert KnownOk(s, v, g);
    }
    forall e | e in s'.queue ensures Exists(s', e) {
      assert Exists(s, e);
    }
  }

  /** A worker that uses a fiber which has not ended uses it alone. */
  lemma Alone(s: State, w: nat, f: nat)
    requires Legal(s) && w < |s.workers| && Uses(s.workers[w], f)
    requires !Dead(s.Of(f)) || Calling(s.workers[w])
    ensures forall v: nat :: v < |s.workers| && v != w ==> !Uses(s.workers[v], f)
    ensures f < s.nextFiber
  {
    forall v: nat | v < |s.workers| && v != w ensures !Uses(s.workers[v], f) {
      assert PairOk(s, v, w, f);
    }
    assert KnownOk(s, w, f);
  }

  // ---- Every step ----

  /** A scan that finds something: pairs and owners apart, nothing is disturbed. */
  lemma ScanTakes(s: State, w: nat, i: nat)
    requires Legal(s) && Enabled(s, Scan(w)) && FirstRunnable(s, w, 0) == Some(i)
    requires s.queue[i].work.Callback? ==> MayCall(s, w)
    requires forall v: nat, x: nat, g: nat :: PairOk(Step(s, Scan(w)), v, x, g)
    requires forall u: nat, v: nat, x: nat, g: nat :: OwnerOk(Step(s, Scan(w)), u, v, x, g)
    ensures Legal(Step(s, Scan(w)))
  {
    var s' := Step(s, Scan(w));
    assert s.queue[i] in s.queue;
    assert Exists(s, s.queue[i]);
    forall v: nat ensures AtOk(s', v) {
      assert AtOk(s, v);
    }
    forall v: nat, x: nat ensures CbFibersOk(s', v, x) {
      assert CbFibersOk(s, v, x);
    }
    forall v: nat, g: nat ensures KnownOk(s', v, g) {
      assert KnownOk(s, v, g);
    }
    forall e | e in s'.queue ensures Exists(s', e) {
      assert e in s.queue;
      assert Exists(s, e);
    }
  }

  lemma ScanTakesFiber(s: State, w: nat, i: nat, f: nat)
    requires Legal(s) && Enabled(s, Scan(w)) && FirstRunnable(s, w, 0) == Some(i)
    requires s.queue[i].work == FiberWork(f) && MayTake(s, w, f)
    ensures Legal(Step(s, Scan(w)))
  {
    var s' := Step(s, Scan(w));
    assert s'.workers == s.workers[w := s.workers[w].(pc := Taken(FiberWork(f)))];
    forall v: nat, x: nat, g: nat ensures PairOk(s', v, x, g) {
      assert PairOk(s, v, x, g);
    }
    forall u: nat, v: nat, x: nat, g: nat ensures OwnerOk(s', u, v, x, g) {
      assert OwnerOk(s, u, v, x, g);
    }
    ScanTakes(s, w, i);
  }

  lemma ScanTakesCallback(s: State, w: nat, i: nat)
    requires Legal(s) && Enabled(s, Scan(w)) && FirstRunnable(s, w, 0) == Some(i)
    requires s.queue[i].work.Callback? && MayCall(s, w)
    ensures Legal(Step(s, Scan(w)))
  {
    var s' := Step(s, Scan(w));
    assert s'.workers == s.workers[w := s.workers[w].(pc := Taken(s.queue[i].work))];
    forall v: nat, x: nat, g: nat ensures PairOk(s', v, x, g) {
      assert PairOk(s, v, x, g);
    }
    forall u: nat, v: nat, x: nat, g: nat ensures OwnerOk(s', u, v, x, g) {
      assert OwnerOk(s, u, v, x, g);
    }
    ScanTakes(s, w, i);
  }

  lemma BeginFiber(s: State, w: nat, f: nat)
    requires Legal(s) && Enabled(s, Begin(w)) && s.workers[w].pc == Taken(FiberWork(f))
    ensures Legal(Step(s, Begin(w)))
  {
    var s' := Step(s, Begin(w));
    assert AtOk(s, w);
    if Dead(s.Of(f)) {
      WorkerMoved(s, s', w);
    } else {
      Alone(s, w, f);
      FiberMoved(s, s', w, f);
    }
  }

  lemma BeginCallback(s: State, w: nat)
    requires Legal(s) && Enabled(s, Begin(w)) && Calling(s.workers[w])
    ensures Legal(Step(s, Begin(w)))
  {
    var s' := Step(s, Begin(w));
    assert AtOk(s, w);
    match s.workers[w].cbFiber
    case Some(g) =>
      Alone(s, w, g);
      FiberMoved(s, s', w, g);
    case None =>
      var g := s.nextFiber;
      forall v: nat | v < |s.workers| && v != w ensures !Uses(s.workers[v], g) {
        assert KnownOk(s, v, g);
      }
      FiberMoved(s, s', w, g);
  }

  lemma YieldKeeps(s: State, w: nat, out: FiberState)
    requires Legal(s) && Enabled(s, Yield(w, out))
    ensures Legal(Step(s, Yield(w, out)))
  {
    var f := s.workers[w].pc.fiber;
    assert AtOk(s, w);
    Alone(s, w, f);
    FiberMoved(s, Step(s, Yield(w, out)), w, f);
  }

  lemma BookKeeps(s: State, w: nat)
    requires Legal(s) && Enabled(s, Book(w))
    ensures Legal(Step(s, Book(w)))
  {
    assert AtOk(s, w);
    WorkerMoved(s, Step(s, Book(w)), w);
  }

  /** The owner of a fiber that ended resets it; at most one other worker waits to run it. */
  lemma ResetKeeps(s: State, w: nat)
    requires Legal(s) && Enabled(s, Settle(w))
    requires s.workers[w].pc.own && Dead(s.Of(s.workers[w].pc.fiber))
    ensures Legal(Step(s, Settle(w)))
  {
    var s' := Step(s, Settle(w));
    var f := s.workers[w].pc.fiber;
    assert AtOk(s, w) && Owner(s.workers[w], f) && Uses(s.workers[w], f);
    forall v: nat ensures AtOk(s', v) {
      assert AtOk(s, v) && PairOk(s, v, w, f);
    }
    forall v: nat, x: nat, g: nat ensures PairOk(s', v, x, g) {
      assert PairOk(s, v, x, g) && PairOk(s, v, w, f) && PairOk(s, x, w, f) && OwnerOk(s, v, w, x, f);
    }
    forall u: nat, v: nat, x: nat, g: nat ensures OwnerOk(s', u, v, x, g) {
      assert OwnerOk(s, u, v, x, g);
    }
    forall v: nat, x: nat ensures CbFibersOk(s', v, x) {
      assert CbFibersOk(s, v, x);
    }
    forall v: nat, g: nat ensures KnownOk(s', v, g) {
      assert KnownOk(s, v, g);
    }
    forall e | e in s'.queue ensures Exists(s', e) {
      assert Exists(s, e);
    }
  }

  lemma SettleKeeps(s: State, w: nat)
    requires Legal(s) && Enabled(s, Settle(w))
    ensures Legal(Step(s, Settle(w)))
  {
    var s' := Step(s, Settle(w));
    var f := s.workers[w].pc.fiber;
    assert AtOk(s, w) && KnownOk(s, w, f);
    if Dead(s.Of(f)) {
      if s.workers[w].pc.own {
        ResetKeeps(s, w);
      } else {
        WorkerMoved(s, s', w);
      }
    } else {
      Alone(s, w, f);
      FiberMoved(s, s', w, f);
    }
  }

  /** The worker neither used a fiber nor does. */
  lemma QuietKeeps(s: State, a: Action, w: nat)
    requires Legal(s) && Enabled(s, a)
    requires ((a.CallerDecides? || a.EnterIdle? || a.IdleCheck? || a.IdleYield?) && a.w == w)
      || (a == Scan(w) && FirstRunnable(s, w, 0) == None)
    ensures Legal(Step(s, a))
  {
    assert AtOk(s, w);
    WorkerMoved(s, Step(s, a), w);
  }

  lemma SameWorkers(s: State, s': State)
    requires Legal(s) && !s'.aborted && s'.workers == s.workers && s'.fibers == s.fibers
    requires s'.nextFiber == s.nextFiber && forall e <- s'.queue :: Exists(s', e)
    ensures Legal(s')
  {
    forall v: nat ensures AtOk(s', v) {
      assert AtOk(s, v);
    }
    forall v: nat, x: nat, g: nat ensures PairOk(s', v, x, g) {
      assert PairOk(s, v, x, g);
    }
    forall u: nat, v: nat, x: nat, g: nat ensures OwnerOk(s', u, v, x, g) {
      assert OwnerOk(s, u, v, x, g);
    }
    forall v: nat, x: nat ensures CbFibersOk(s', v, x) {
      assert CbFibersOk(s, v, x);
    }
    forall v: nat, g: nat ensures KnownOk(s', v, g) {
      assert KnownOk(s, v, g);
    }
  }

  /** Every careful step keeps it. */
  lemma StepKeeps(s: State, a: Action)
    requires Legal(s) && Enabled(s, a) && Careful(s, a)
    ensures Legal(Step(s, a))
  {
    match a
    case Outside(e) => SameWorkers(s, Step(s, a));
    case SetAutostop => SameWorkers(s, Step(s, a));
    case SetStopping => SameWorkers(s, Step(s, a));
    case CallerDecides(w, _) => QuietKeeps(s, a, w);
    case Scan(w) =>
      match FirstRunnable(s, w, 0) {
        case None => QuietKeeps(s, a, w);
        case Some(i) =>
          match s.queue[i].work {
            case FiberWork(f) => ScanTakesFiber(s, w, i, f);
            case Callback(_) => ScanTakesCallback(s, w, i);
          }
      }
    case Begin(w) =>
      match s.workers[w].pc.work {
        case FiberWork(f) => BeginFiber(s, w, f);
        case Callback(_) => BeginCallback(s, w);
      }
    case Push(_, e) => SameWorkers(s, Step(s, a));
    case Yield(w, out) => YieldKeeps(s, w, out);
    case Book(w) => BookKeeps(s, w);
    case Settle(w) => SettleKeeps(s, w);
    case EnterIdle(w) => QuietKeeps(s, a, w);
    case IdleCheck(w, _) => QuietKeeps(s, a, w);
    case IdleYield(w) => QuietKeeps(s, a, w);
  }

  /** In a legal state a worker back from a fiber finds it as it left: it puts it back, once and unpinned,
      exactly when the fiber yielded READY, and otherwise leaves the queue alone. */
  lemma ReadyIsRequeuedOnce(s: State, w: nat)
    requires Legal(s) && Enabled(s, Settle(w))
    ensures var Booked(f, _, out) := s.workers[w].pc;
            Step(s, Settle(w)).queue == if out == Ready then s.queue + [Entry(FiberWork(f), None)] else s.queue
  {
    assert AtOk(s, w);
  }

  /** In any state, legal or not: a fiber found READY is put back and its worker keeps no hold of it, one
      that ended stays ended or, as the worker's cb_fiber, is made a fresh one and kept, and any other is
      HOLD from then on and nobody's cb_fiber here. */
  lemma SettleMeans(s: State, w: nat)
    requires Enabled(s, Settle(w))
    ensures var Booked(f, own, _) := s.workers[w].pc; var s' := Step(s, Settle(w));
      && w < |s'.workers| && s'.workers[w].pc == Scanning
      && (s'.queue != s.queue <==> s.Of(f) == Ready)
      && s'.Of(f) == (match s.Of(f)
                      case Ready => Ready
                      case Term => if own then Blank else Term
                      case Except => if own then Blank else Except
                      case _ => Hold)
      && (s'.workers[w].cbFiber == if own && !Dead(s.Of(f)) then None else s.workers[w].cbFiber)
      && (forall g :: g != f ==> s'.Of(g) == s.Of(g))
  {
  }
}
