/** When cb_fiber is null or INIT at the loop head, and a discipline under which no assertion of Fiber
    fires and every fiber has one place.
 */
module SchedulerDiscipline {
  import opened Options
  import opened Scheduler
  import opened SchedulerLegality
  import opened SchedulerExact

  predicate Own(pc: Pc) {
    (pc.Running? || pc.Back? || pc.Booked?) && pc.own
  }

  // ---- cb_fiber between callbacks ----

  /** v has a cb_fiber that it is not running, and that is not INIT. */
  predicate Spoiled(s: State, v: nat) {
    && v < |s.workers| && s.workers[v].cbFiber.Some? && !Own(s.workers[v].pc)
    && s.Of(s.workers[v].cbFiber.value) != Init && s.Of(s.workers[v].cbFiber.value) != Blank
  }

  /** The cb_fiber of v is used by v only, and only as its cb_fiber. */
  predicate CbFree(s: State, v: nat, w: nat, f: nat) {
    v < |s.workers| && w < |s.workers| && s.workers[v].cbFiber == Some(f) ==>
      if w == v then PcFiber(s.workers[v].pc) == Some(f) ==> Own(s.workers[v].pc)
      else !Uses(s.workers[w], f)
  }

  ghost predicate Unborrowed(s: State) {
    && (forall v: nat, w: nat, f: nat :: CbFree(s, v, w, f))
    && (forall v: nat :: !Spoiled(s, v))
  }

  /** The scan takes an entry of a fiber that is some worker's cb_fiber. */
  predicate Borrows(s: State, w: nat)
    requires w < |s.workers|
  {
    match FirstRunnable(s, w, 0)
    case None => false
    case Some(k) => s.queue[k].work.FiberWork? && exists v <- s.workers :: v.cbFiber == Some(s.queue[k].work.fiber)
  }

  predicate NoBorrow(s: State, a: Action) {
    a.Scan? && a.w < |s.workers| ==> !Borrows(s, a.w)
  }

  lemma InitialUnborrowed(s: State)
    requires Initial(s)
    ensures Unborrowed(s)
  {
    forall v: nat | v < |s.workers| ensures s.workers[v].cbFiber == None {
      assert s.workers[v] in s.workers;
    }
  }

  /** Only w moved; the one fiber that may have changed is no other worker's cb_fiber, nor is what w uses now. */
  lemma Kept(s: State, s': State, w: nat, f: Option<nat>)
    requires Unborrowed(s) && w < |s.workers| == |s'.workers|
    requires forall v: nat :: v < |s.workers| && v != w ==> s'.workers[v] == s.workers[v]
    requires f.Some? ==> forall v: nat :: v < |s.workers| && v != w ==> s.workers[v].cbFiber != f
    requires forall g: nat :: f != Some(g) ==> s'.Of(g) == s.Of(g)
    requires forall g: nat :: Uses(s'.workers[w], g) ==> f == Some(g)
    requires s'.workers[w].cbFiber.Some? ==>
      && (forall v: nat :: v < |s.workers| && v != w ==> !Uses(s.workers[v], s'.workers[w].cbFiber.value))
      && CbFree(s', w, w, s'.workers[w].cbFiber.value) && !Spoiled(s', w)
    ensures Unborrowed(s')
  {
    forall v: nat, x: nat, g: nat ensures CbFree(s', v, x, g) {
      assert CbFree(s, v, x, g);
    }
    forall v: nat ensures !Spoiled(s', v) {
      assert !Spoiled(s, v);
    }
  }

  /** What w has to itself. */
  lemma OwnCb(s: State, w: nat)
    requires Legal(s) && Unborrowed(s) && w < |s.workers|
    ensures s.workers[w].cbFiber.Some? ==>
      && (forall v: nat :: v < |s.workers| && v != w ==>
            !Uses(s.workers[v], s.workers[w].cbFiber.value) && s.workers[v].cbFiber != s.workers[w].cbFiber)
      && (Own(s.workers[w].pc) || s.Of(s.workers[w].cbFiber.value) in {Init, Blank})
  {
    if s.workers[w].cbFiber.Some? {
      var g := s.workers[w].cbFiber.value;
      assert !Spoiled(s, w);
      forall v: nat | v < |s.workers| && v != w ensures !Uses(s.workers[v], g) && s.workers[v].cbFiber != Some(g) {
        assert CbFree(s, w, v, g) && CbFibersOk(s, w, v);
      }
    }
  }

  /** Nobody else's cb_fiber is what w uses. */
  lemma NotTheirs(s: State, w: nat, f: nat)
    requires Unborrowed(s) && w < |s.workers| && Uses(s.workers[w], f)
    ensures forall v: nat :: v < |s.workers| && v != w ==> s.workers[v].cbFiber != Some(f)
  {
    forall v: nat | v < |s.workers| && v != w ensures s.workers[v].cbFiber != Some(f) {
      assert CbFree(s, v, w, f);
    }
  }

  lemma ScanKeeps(s: State, w: nat)
    requires Legal(s) && Unborrowed(s) && Enabled(s, Scan(w)) && !Borrows(s, w)
    ensures Unborrowed(Step(s, Scan(w)))
  {
    OwnCb(s, w);
    var s' := Step(s, Scan(w));
    match FirstRunnable(s, w, 0)
    case None => Kept(s, s', w, None);
    case Some(k) =>
      match s.queue[k].work {
        case FiberWork(f) =>
          forall v: nat | v < |s.workers| ensures s.workers[v].cbFiber != Some(f) {
            assert s.workers[v] in s.workers;
          }
          Kept(s, s', w, Some(f));
        case Callback(_) => Kept(s, s', w, s.workers[w].cbFiber);
      }
  }

  lemma BeginFiberKeeps(s: State, w: nat, f: nat)
    requires Legal(s) && Unborrowed(s) && Enabled(s, Begin(w)) && s.workers[w].pc == Taken(FiberWork(f))
    ensures Unborrowed(Step(s, Begin(w)))
  {
    OwnCb(s, w);
    assert AtOk(s, w) && CbFree(s, w, w, f);
    NotTheirs(s, w, f);
    Kept(s, Step(s, Begin(w)), w, Some(f));
  }

  lemma BeginCallbackKeeps(s: State, w: nat)
    requires Legal(s) && Unborrowed(s) && Enabled(s, Begin(w)) && Calling(s.workers[w])
    ensures Unborrowed(Step(s, Begin(w)))
  {
    OwnCb(s, w);
    assert AtOk(s, w);
    if s.workers[w].cbFiber.Some? {
      Kept(s, Step(s, Begin(w)), w, s.workers[w].cbFiber);
    } else {
      var g := s.nextFiber;
      forall v: nat | v < |s.workers| && v != w ensures !Uses(s.workers[v], g) && s.workers[v].cbFiber != Some(g) {
        assert KnownOk(s, v, g);
      }
      Kept(s, Step(s, Begin(w)), w, Some(g));
    }
  }

  lemma BeginKeeps(s: State, w: nat)
    requires Legal(s) && Unborrowed(s) && Enabled(s, Begin(w))
    ensures Unborrowed(Step(s, Begin(w)))
  {
    match s.workers[w].pc.work
    case FiberWork(f) => BeginFiberKeeps(s, w, f);
    case Callback(_) => BeginCallbackKeeps(s, w);
  }

  lemma YieldKeeps(s: State, w: nat, out: FiberState)
    requires Legal(s) && Unborrowed(s) && Enabled(s, Yield(w, out))
    ensures Unborrowed(Step(s, Yield(w, out)))
  {
    OwnCb(s, w);
    var f := s.workers[w].pc.fiber;
    assert AtOk(s, w) && CbFree(s, w, w, f);
    NotTheirs(s, w, f);
    Kept(s, Step(s, Yield(w, out)), w, Some(f));
  }

  lemma BookKeeps(s: State, w: nat)
    requires Legal(s) && Unborrowed(s) && Enabled(s, Book(w))
    ensures Unborrowed(Step(s, Book(w)))
  {
    OwnCb(s, w);
    if s.workers[w].pc.Discarding? {
      Kept(s, Step(s, Book(w)), w, None);
    } else {
      var f := s.workers[w].pc.fiber;
      assert AtOk(s, w) && CbFree(s, w, w, f);
      NotTheirs(s, w, f);
      Kept(s, Step(s, Book(w)), w, Some(f));
    }
  }

  lemma SettleKeeps(s: State, w: nat)
    requires Legal(s) && Unborrowed(s) && Enabled(s, Settle(w))
    ensures Unborrowed(Step(s, Settle(w)))
  {
    OwnCb(s, w);
    var f := s.workers[w].pc.fiber;
    assert AtOk(s, w) && CbFree(s, w, w, f);
    NotTheirs(s, w, f);
    Kept(s, Step(s, Settle(w)), w, Some(f));
  }

  lemma QuietKeeps(s: State, a: Action, w: nat)
    requires Legal(s) && Unborrowed(s) && Enabled(s, a)
    requires ((a.CallerDecides? || a.EnterIdle? || a.IdleCheck? || a.IdleYield?) && a.w == w)
    ensures Unborrowed(Step(s, a))
  {
    OwnCb(s, w);
    Kept(s, Step(s, a), w, None);
  }

  lemma SameKeeps(s: State, s': State)
    requires Unborrowed(s) && s'.workers == s.workers && s'.fibers == s.fibers
    ensures Unborrowed(s')
  {
    forall v: nat, x: nat, g: nat ensures CbFree(s', v, x, g) {
      assert CbFree(s, v, x, g);
    }
    forall v: nat ensures !Spoiled(s', v) {
      assert !Spoiled(s, v);
    }
  }

  lemma StepUnborrowed(s: State, a: Action)
    requires Legal(s) && Unborrowed(s) && Enabled(s, a) && NoBorrow(s, a)
    ensures Unborrowed(Step(s, a))
  {
    match a
    case Scan(w) => ScanKeeps(s, w);
    case Begin(w) => BeginKeeps(s, w);
    case Yield(w, out) => YieldKeeps(s, w, out);
    case Book(w) => BookKeeps(s, w);
    case Settle(w) => SettleKeeps(s, w);
    case CallerDecides(w, _) => QuietKeeps(s, a, w);
    case EnterIdle(w) => QuietKeeps(s, a, w);
    case IdleCheck(w, _) => QuietKeeps(s, a, w);
    case IdleYield(w) => QuietKeeps(s, a, w);
    case _ => SameKeeps(s, Step(s, a));
  }

  // ---- cb_fiber is spoiled if and only if it is borrowed ----

  ghost predicate CanSpoil(allow: Policy, s: State) {
    exists actions, m, v :: CarefulRunIn(allow, s, actions, m) && Spoiled(m, v)
  }

  ghost predicate MeetsBorrow(allow: Policy, s: State) {
    exists actions, m, w ::
      CarefulRunIn(allow, s, actions, m) && Enabled(m, Scan(w)) && CarefulScan(m, w) && Borrows(m, w)
  }

  lemma SpoiledAlready(allow: Policy, s: State, v: nat)
    requires Spoiled(s, v)
    ensures CanSpoil(allow, s)
  {
    assert CarefulRunIn(allow, s, [], s);
  }

  lemma StepToSpoil(allow: Policy, s: State, a: Action)
    requires Enabled(s, a) && allow(s, a) && Careful(s, a) && CanSpoil(allow, Step(s, a))
    ensures CanSpoil(allow, s)
  {
    var actions, m, v :| CarefulRunIn(allow, Step(s, a), actions, m) && Spoiled(m, v);
    assert ([a] + actions)[1..] == actions;
    assert CarefulRunIn(allow, s, [a] + actions, m);
  }

  /** The borrower swaps the fiber in while its owner is not running it. */
  lemma Swapped(allow: Policy, s: State, w: nat, v: nat, f: nat)
    requires Permits(allow) && !s.aborted && w < |s.workers| && v < |s.workers|
    requires s.workers[w].pc == Taken(FiberWork(f)) && !Dead(s.Of(f)) && s.Of(f) != Exec
    requires s.workers[v].cbFiber == Some(f) && !Own(s.workers[v].pc)
    ensures CanSpoil(allow, s)
  {
    SpoiledAlready(allow, Step(s, Begin(w)), v);
    StepToSpoil(allow, s, Begin(w));
  }

  /** The owner, back from the fiber which ended, resets it before the borrower swaps it in. */
  lemma ResetAndSwapped(allow: Policy, s: State, w: nat, v: nat, f: nat)
    requires Permits(allow) && !s.aborted && w < |s.workers| && v < |s.workers| && v != w
    requires s.workers[w].pc == Taken(FiberWork(f)) && Dead(s.Of(f))
    requires s.workers[v].cbFiber == Some(f) && Owner(s.workers[v], f)
    ensures CanSpoil(allow, s)
  {
    var s1 := if s.workers[v].pc.Back? then Step(s, Book(v)) else s;
    Swapped(allow, Step(s1, Settle(v)), w, v, f);
    StepToSpoil(allow, s1, Settle(v));
    if s.workers[v].pc.Back? {
      StepToSpoil(allow, s, Book(v));
    }
  }

  lemma TakenSpoils(allow: Policy, s: State, w: nat, k: nat, v: nat, f: nat)
    requires Permits(allow) && Legal(s) && !Spoiled(s, v) && Enabled(s, Scan(w)) && FirstRunnable(s, w, 0) == Some(k)
    requires s.queue[k].work == FiberWork(f) && MayTake(s, w, f)
    requires v < |s.workers| && s.workers[v].cbFiber == Some(f)
    ensures CanSpoil(allow, Step(s, Scan(w)))
  {
    assert !Skipped(s, s.queue[k], w) && AtOk(s, v);
    var s1 := Step(s, Scan(w));
    if Own(s.workers[v].pc) {
      assert Uses(s.workers[v], f);
      ResetAndSwapped(allow, s1, w, v, f);
    } else {
      Swapped(allow, s1, w, v, f);
    }
  }

  lemma BorrowSpoils(allow: Policy, s: State, w: nat)
    requires Permits(allow) && Legal(s) && Unborrowed(s)
    requires Enabled(s, Scan(w)) && CarefulScan(s, w) && Borrows(s, w)
    ensures CanSpoil(allow, s)
  {
    var k := FirstRunnable(s, w, 0).value;
    var f := s.queue[k].work.fiber;
    var x :| x in s.workers && x.cbFiber == Some(f);
    var v: nat :| v < |s.workers| && s.workers[v] == x;
    TakenSpoils(allow, s, w, k, v, f);
    StepToSpoil(allow, s, Scan(w));
  }

  /** Along a careful run the first scan that borrows spoils. */
  lemma {:induction false} FirstBorrow(allow: Policy, s: State, actions: seq<Action>, m: State, w: nat)
    requires Permits(allow) && Legal(s) && Unborrowed(s) && CarefulRunIn(allow, s, actions, m)
    requires Enabled(m, Scan(w)) && CarefulScan(m, w) && Borrows(m, w)
    ensures CanSpoil(allow, s)
    decreases |actions|
  {
    if actions == [] {
      BorrowSpoils(allow, s, w);
    } else {
      var a := actions[0];
      if NoBorrow(s, a) {
        StepKeeps(s, a);
        StepUnborrowed(s, a);
        FirstBorrow(allow, Step(s, a), actions[1..], m, w);
        StepToSpoil(allow, s, a);
      } else {
        BorrowSpoils(allow, s, a.w);
      }
    }
  }

  /** A careful run that spoils has borrowed. */
  lemma {:induction false} SpoiledByBorrow(allow: Policy, s: State, actions: seq<Action>, m: State, v: nat)
    requires Legal(s) && Unborrowed(s) && CarefulRunIn(allow, s, actions, m) && Spoiled(m, v)
    ensures MeetsBorrow(allow, s)
    decreases |actions|
  {
    if actions != [] {
      var a := actions[0];
      if NoBorrow(s, a) {
        StepKeeps(s, a);
        StepUnborrowed(s, a);
        SpoiledByBorrow(allow, Step(s, a), actions[1..], m, v);
        var more, x, w :|
          CarefulRunIn(allow, Step(s, a), more, x) && Enabled(x, Scan(w)) && CarefulScan(x, w) && Borrows(x, w);
        assert ([a] + more)[1..] == more;
        assert CarefulRunIn(allow, s, [a] + more, x);
      } else {
        assert CarefulRunIn(allow, s, [], s);
      }
    }
  }

  /** Whatever may be scheduled: in careful runs a cb_fiber that its worker is not running, at the loop head
      for one, can be other than INIT if and only if some scan takes a cb_fiber's entry from the queue. */
  lemma CbFiberIsInitIff(allow: Policy, s: State)
    requires Permits(allow) && Initial(s)
    ensures CanSpoil(allow, s) <==> MeetsBorrow(allow, s)
  {
    InitialLegal(s);
    InitialUnborrowed(s);
    if CanSpoil(allow, s) {
      var actions, m, v :| CarefulRunIn(allow, s, actions, m) && Spoiled(m, v);
      SpoiledByBorrow(allow, s, actions, m, v);
    }
    if MeetsBorrow(allow, s) {
      var actions, m, w :|
        CarefulRunIn(allow, s, actions, m) && Enabled(m, Scan(w)) && CarefulScan(m, w) && Borrows(m, w);
      FirstBorrow(allow, s, actions, m, w);
    }
  }

  // ---- A discipline callers can keep ----

  predicate Holds(w: Worker, f: nat) {
    PcFiber(w.pc) == Some(f) || w.cbFiber == Some(f)
  }

  predicate Held(s: State, f: nat) {
    exists w :: 0 <= w < |s.workers| && Holds(s.workers[w], f)
  }

  predicate Queued(s: State, f: nat) {
    exists i :: 0 <= i < |s.queue| && s.queue[i].work == FiberWork(f)
  }

  predicate Free(s: State, e: Entry) {
    e.work.FiberWork? ==> !Queued(s, e.work.fiber) && !Held(s, e.work.fiber)
  }

  /** Whoever schedules a fiber sees to it that it is neither queued nor held by a worker. */
  predicate Disciplined(s: State, a: Action) {
    match a
    case Outside(e) => Free(s, e)
    case Push(_, e) => Free(s, e)
    case _ => true
  }

  ghost predicate DisciplinedRun(s: State, actions: seq<Action>, s': State)
    decreases |actions|
  {
    if actions == [] then s == s'
    else Enabled(s, actions[0]) && Disciplined(s, actions[0]) && DisciplinedRun(Step(s, actions[0]), actions[1..], s')
  }

  /** Entry i is of no fiber that a worker holds or that has another entry. */
  predicate EntryOk(s: State, i: nat) {
    i < |s.queue| && s.queue[i].work.FiberWork? ==>
      && !Held(s, s.queue[i].work.fiber)
      && forall j :: 0 <= j < |s.queue| && j != i ==> s.queue[j].work != s.queue[i].work
  }

  predicate HeldOnce(s: State, v: nat, w: nat, f: nat) {
    v < |s.workers| && w < |s.workers| && v != w ==> !(Holds(s.workers[v], f) && Holds(s.workers[w], f))
  }

  /** Each fiber has at most one place: one queue entry, or the one worker that holds it. */
  ghost predicate OnePlace(s: State) {
    (forall i: nat :: EntryOk(s, i)) && (forall v: nat, w: nat, f: nat :: HeldOnce(s, v, w, f))
  }

  lemma OnePlaceIsCareful(s: State, w: nat)
    requires Legal(s) && Unborrowed(s) && OnePlace(s) && Enabled(s, Scan(w))
    ensures CarefulScan(s, w) && !Borrows(s, w)
  {
    OwnCb(s, w);
    match FirstRunnable(s, w, 0)
    case None =>
    case Some(k) =>
      assert EntryOk(s, k);
      if s.queue[k].work.FiberWork? {
        forall v | 0 <= v < |s.workers| ensures !Holds(s.workers[v], s.queue[k].work.fiber) {
        }
      }
  }

  /** Only worker w moved. */
  ghost predicate OnlyMoves(s: State, s': State, w: nat) {
    |s'.workers| == |s.workers| && forall v: nat :: v < |s.workers| && v != w ==> s'.workers[v] == s.workers[v]
  }

  /** A step of worker w that queues nothing and gives w no fiber but one just made. */
  lemma NothingQueuedKeeps(s: State, s': State, w: nat)
    requires Legal(s) && OnePlace(s) && s'.queue == s.queue && OnlyMoves(s, s', w)
    requires forall f: nat :: w < |s.workers| && Holds(s'.workers[w], f) && !Holds(s.workers[w], f) ==>
      f >= s.nextFiber
    ensures OnePlace(s')
  {
    forall u: nat, v: nat, f: nat ensures HeldOnce(s', u, v, f) {
      assert HeldOnce(s, u, v, f) && KnownOk(s, u, f) && KnownOk(s, v, f);
    }
    forall i: nat ensures EntryOk(s', i) {
      assert EntryOk(s, i);
      if i < |s.queue| {
        assert s.queue[i] in s.queue;
        assert Exists(s, s.queue[i]);
      }
    }
  }

  /** A step that queues a fiber nobody holds or has queued. */
  lemma QueuedKeeps(s: State, s': State, e: Entry)
    requires OnePlace(s) && s'.queue == s.queue + [e] && |s'.workers| == |s.workers|
    requires e.work.FiberWork? ==> !Queued(s, e.work.fiber) && !Held(s', e.work.fiber)
    requires forall w: nat, f: nat :: w < |s.workers| && Holds(s'.workers[w], f) ==> Holds(s.workers[w], f)
    ensures OnePlace(s')
  {
    forall u: nat, v: nat, f: nat ensures HeldOnce(s', u, v, f) {
      assert HeldOnce(s, u, v, f);
    }
    forall i: nat ensures EntryOk(s', i) {
      assert EntryOk(s, i);
    }
  }

  /** Taking entry k out of the queue into worker w's hands. */
  lemma WithoutEntry(s: State, s': State, w: nat, k: nat)
    requires OnePlace(s) && k < |s.queue| && w < |s.workers| && OnlyMoves(s, s', w)
    requires s'.queue == s.queue[..k] + s.queue[k + 1..]
    requires forall f: nat :: Holds(s'.workers[w], f) && !Holds(s.workers[w], f) ==> s.queue[k].work == FiberWork(f)
    ensures OnePlace(s')
  {
    forall u: nat, v: nat, f: nat ensures HeldOnce(s', u, v, f) {
      assert HeldOnce(s, u, v, f) && EntryOk(s, k);
      assert !Held(s, f) ==>
          (u < |s.workers| ==> !Holds(s.workers[u], f)) && (v < |s.workers| ==> !Holds(s.workers[v], f));
    }
    forall i: nat | i < |s'.queue| ensures s'.queue[i] == s.queue[if i < k then i else i + 1] {
    }
    forall i: nat ensures EntryOk(s', i) {
      assert EntryOk(s, if i < k then i else i + 1) && EntryOk(s, k);
    }
  }

  lemma BeginFiberKeepsOnePlace(s: State, w: nat, g: nat)
    requires Legal(s) && OnePlace(s) && Enabled(s, Begin(w)) && s.workers[w].pc == Taken(FiberWork(g))
    ensures OnePlace(Step(s, Begin(w)))
  {
    var s' := Step(s, Begin(w));
    NothingQueuedKeeps(s, s', w);
  }

  lemma BeginCallbackKeepsOnePlace(s: State, w: nat)
    requires Legal(s) && OnePlace(s) && Enabled(s, Begin(w)) && Calling(s.workers[w])
    ensures OnePlace(Step(s, Begin(w)))
  {
    var s' := Step(s, Begin(w));
    assert AtOk(s, w);
    NothingQueuedKeeps(s, s', w);
  }

  lemma BeginKeepsOnePlace(s: State, w: nat)
    requires Legal(s) && OnePlace(s) && Enabled(s, Begin(w))
    ensures OnePlace(Step(s, Begin(w)))
  {
    match s.workers[w].pc.work
    case FiberWork(g) => BeginFiberKeepsOnePlace(s, w, g);
    case Callback(_) => BeginCallbackKeepsOnePlace(s, w);
  }

  lemma ScanKeepsOnePlace(s: State, w: nat)
    requires Legal(s) && OnePlace(s) && Enabled(s, Scan(w))
    ensures OnePlace(Step(s, Scan(w)))
  {
    match FirstRunnable(s, w, 0)
    case None => NothingQueuedKeeps(s, Step(s, Scan(w)), w);
    case Some(k) => WithoutEntry(s, Step(s, Scan(w)), w, k);
  }

  lemma ReadyKeepsOnePlace(s: State, w: nat)
    requires Legal(s) && Unborrowed(s) && OnePlace(s) && Enabled(s, Settle(w))
    requires s.Of(s.workers[w].pc.fiber) == Ready
    ensures OnePlace(Step(s, Settle(w)))
  {
    var s' := Step(s, Settle(w));
    var f := s.workers[w].pc.fiber;
    assert AtOk(s, w) && Holds(s.workers[w], f);
    Alone(s, w, f);
    NotTheirs(s, w, f);
    assert CbFree(s, w, w, f);
    forall i | 0 <= i < |s.queue| ensures s.queue[i].work != FiberWork(f) {
      assert EntryOk(s, i);
    }
    forall v | 0 <= v < |s'.workers| ensures !Holds(s'.workers[v], f) {
    }
    QueuedKeeps(s, s', Entry(FiberWork(f), None));
  }

  lemma SettleKeepsOnePlace(s: State, w: nat)
    requires Legal(s) && Unborrowed(s) && OnePlace(s) && Enabled(s, Settle(w))
    ensures OnePlace(Step(s, Settle(w)))
  {
    if s.Of(s.workers[w].pc.fiber) == Ready {
      ReadyKeepsOnePlace(s, w);
    } else {
      NothingQueuedKeeps(s, Step(s, Settle(w)), w);
    }
  }

  /** The steps that move a worker without giving it anything. */
  lemma MoveKeepsOnePlace(s: State, a: Action)
    requires Legal(s) && OnePlace(s) && Enabled(s, a)
    requires a.Yield? || a.Book? || a.CallerDecides? || a.EnterIdle? || a.IdleCheck? || a.IdleYield?
    ensures OnePlace(Step(s, a))
  {
    NothingQueuedKeeps(s, Step(s, a), a.w);
  }

  lemma StepKeepsOnePlace(s: State, a: Action)
    requires Legal(s) && Unborrowed(s) && OnePlace(s) && Enabled(s, a) && Disciplined(s, a)
    ensures OnePlace(Step(s, a))
  {
    match a
    case Outside(e) => QueuedKeeps(s, Step(s, a), e);
    case Push(_, e) => QueuedKeeps(s, Step(s, a), e);
    case SetAutostop => NothingQueuedKeeps(s, Step(s, a), 0);
    case SetStopping => NothingQueuedKeeps(s, Step(s, a), 0);
    case Scan(w) => ScanKeepsOnePlace(s, w);
    case Settle(w) => SettleKeepsOnePlace(s, w);
    case Begin(w) => BeginKeepsOnePlace(s, w);
    case _ => MoveKeepsOnePlace(s, a);
  }

  /** If every fiber scheduled is neither queued nor held, no assertion ever fires, cb_fiber is INIT between
      callbacks, and every fiber has at most one place. */
  lemma {:induction false} DisciplinedRunsAreLegal(s: State, actions: seq<Action>, s': State)
    requires Legal(s) && Unborrowed(s) && OnePlace(s) && DisciplinedRun(s, actions, s')
    ensures Legal(s') && Unborrowed(s') && OnePlace(s')
    decreases |actions|
  {
    if actions != [] {
      var a := actions[0];
      if a.Scan? {
        OnePlaceIsCareful(s, a.w);
      }
      StepKeeps(s, a);
      StepUnborrowed(s, a);
      StepKeepsOnePlace(s, a);
      DisciplinedRunsAreLegal(Step(s, a), actions[1..], s');
    }
  }
}
