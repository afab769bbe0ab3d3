/** What the event table promises: it agrees with the kernel after every call, its epoll_ctl calls are
    always the legal ones, and no waiter is lost or handed over twice.
 */
module EventProofs {
  import opened EventSpec

  // ---- Growth ----

  /** One and a half times the descriptor makes it a valid index exactly from 2 on, which the table's
      first size of 32 sees to. */
  lemma GrowthIndex(fds: seq<FdRec>, fd: nat)
    requires fd >= |fds|
    ensures fd < |Grown(fds, fd)| <==> fd >= 2
    ensures 2 * |Grown(fds, fd)| == if fd % 2 == 0 then 3 * fd else 3 * fd - 1
  {
  }

  lemma {:induction false} CountBlank(fds: seq<FdRec>, n: nat)
    ensures CountAll(fds + Blank(n)) == CountAll(fds)
  {
    if n == 0 {
      assert fds + Blank(0) == fds;
    } else {
      var all := fds + Blank(n);
      assert all[..|all| - 1] == fds + Blank(n - 1);
      CountBlank(fds, n - 1);
    }
  }

  lemma GrownAgrees(s: State, fd: nat)
    requires Agrees(s)
    ensures Agrees(s.(fds := Grown(s.fds, fd)))
  {
    GrownHolds(s.fds, fd);
    if fd >= |s.fds| {
      CountBlank(s.fds, fd * 3 / 2 - |s.fds|);
    }
    var s' := s.(fds := Grown(s.fds, fd));
    forall i: nat ensures At(s', i) {
      assert At(s, i);
      assert i < |s.fds| ==> s'.fds[i] == s'.fds[..|s.fds|][i];
    }
  }

  /** What is known of the descriptor's context after growth. */
  lemma GrownAt(s: State, fd: nat)
    requires Agrees(s)
    ensures At(s, fd) && At(s.(fds := Grown(s.fds, fd)), fd) && fd < |Grown(s.fds, fd)|
  {
    GrownHolds(s.fds, fd);
    GrownAgrees(s, fd);
    assert At(s, fd) && At(s.(fds := Grown(s.fds, fd)), fd);
  }

  // ---- One record changes ----

  lemma {:induction false} CountUpdate(fds: seq<FdRec>, i: nat, f: FdRec)
    requires i < |fds|
    ensures CountAll(fds[i := f]) + CountRec(fds[i]) == CountAll(fds) + CountRec(f)
    decreases |fds|
  {
    var n := |fds| - 1;
    if i == n {
      assert fds[i := f][..n] == fds[..n];
    } else {
      CountUpdate(fds[..n], i, f);
      assert fds[i := f][..n] == fds[..n][i := f];
    }
  }

  lemma RecordChanged(s: State, fd: nat, f: FdRec, s': State)
    requires Agrees(s) && fd < |s.fds| && RecOk(f)
    requires s'.fds == s.fds[fd := f] && s'.pending - s.pending == CountRec(f) - CountRec(s.fds[fd])
    requires s'.kernel == if f.events == {} then s.kernel - {fd} else s.kernel[fd := f.events]
    ensures Agrees(s')
  {
    CountUpdate(s.fds, fd, f);
    forall i: nat ensures At(s', i) {
      assert At(s, i);
    }
  }

  // ---- Every operation ----

  /** What a record becomes when a waiter is accepted. */
  ghost function Joined(f: FdRec, e: Event, scheduler: nat, w: Waiter): FdRec {
    SetContext(f, e, Occupant(scheduler, w)).(events := f.events + {e})
  }

  lemma AddInSteps(s: State, fd: nat, e: Event, scheduler: nat, w: Waiter, fault: bool)
    requires Agrees(s)
    ensures var (s', r) := AddEvent(s, fd, e, scheduler, w, fault);
      && fd < |Grown(s.fds, fd)|
      && (r == Aborted <==> fd < |s.fds| && e in s.fds[fd].events)
      && (r == Refused <==> !(fd < |s.fds| && e in s.fds[fd].events) && fault)
      && (r == Refused ==> s' == s.(fds := Grown(s.fds, fd)))
      && (r == Done ==> s' == s.(
            fds := Grown(s.fds, fd)[fd := Joined(Grown(s.fds, fd)[fd], e, scheduler, w)],
            kernel := s.kernel[fd := Joined(Grown(s.fds, fd)[fd], e, scheduler, w).events],
            pending := s.pending + 1))
      && (r == Done ==> e !in Grown(s.fds, fd)[fd].events)
  {
    GrownHolds(s.fds, fd);
    var f := Grown(s.fds, fd)[fd];
    assert fd < |s.fds| ==> f == Grown(s.fds, fd)[..|s.fds|][fd] == s.fds[fd];
    assert At(s, fd);
    assert ContextOk(f, e);
  }

  /** addEvent succeeds exactly when the event is not registered yet and the kernel is not at fault;
      registering twice is the only thing that trips its assertions. */
  lemma AddAgrees(s: State, fd: nat, e: Event, scheduler: nat, w: Waiter, fault: bool)
    requires Agrees(s)
    ensures var (s', r) := AddEvent(s, fd, e, scheduler, w, fault);
      && (r == Aborted <==> fd < |s.fds| && e in s.fds[fd].events)
      && (r == Refused <==> !(fd < |s.fds| && e in s.fds[fd].events) && fault)
      && (r != Aborted ==> Agrees(s') && s'.handed == s.handed)
      && (r == Done ==>
            fd < |s'.fds| && e in s'.fds[fd].events && GetContext(s'.fds[fd], e) == Occupant(scheduler, w))
  {
    AddInSteps(s, fd, e, scheduler, w, fault);
    GrownAgrees(s, fd);
    var s1 := s.(fds := Grown(s.fds, fd));
    var f := s1.fds[fd];
    if e !in f.events && !fault {
      var f' := Joined(f, e, scheduler, w);
      assert At(s1, fd);
      assert RecOk(f');
      RecordChanged(s1, fd, f', AddEvent(s, fd, e, scheduler, w, fault).0);
    }
  }

  /** One event less, the kernel told. */
  lemma RemovedAgrees(s: State, fd: nat, e: Event, s': State)
    requires Agrees(s) && fd < |s.fds| && e in s.fds[fd].events
    requires s'.fds == s.fds[fd := SetContext(s.fds[fd], e, EMPTY).(events := s.fds[fd].events - {e})]
    requires s'.pending == s.pending - 1
    requires s'.kernel == if s.fds[fd].events == {e} then s.kernel - {fd} else s.kernel[fd := s.fds[fd].events - {e}]
    ensures Agrees(s')
  {
    assert At(s, fd);
    RecordChanged(s, fd, SetContext(s.fds[fd], e, EMPTY).(events := s.fds[fd].events - {e}), s');
  }

  /** delEvent succeeds exactly when the event is registered and the kernel is not at fault. */
  lemma DelAgrees(s: State, fd: nat, e: Event, fault: bool)
    requires Agrees(s)
    ensures var (s', r) := DelEvent(s, fd, e, fault);
      && (r == Done <==> fd < |s.fds| && e in s.fds[fd].events && !fault)
      && r != Aborted && (r == Refused ==> s' == s) && s'.handed == s.handed
      && Agrees(s')
  {
    assert At(s, fd);
    if fd < |s.fds| && e in s.fds[fd].events && !fault {
      RemovedAgrees(s, fd, e, DelEvent(s, fd, e, fault).0);
    }
  }

  /** A trigger leaves the slot empty, so the next addEvent finds nothing in it. */
  lemma TriggerEmpties(s: State, fd: nat, e: Event)
    requires fd < |s.fds| && RecOk(s.fds[fd]) && e in s.fds[fd].events
    ensures var s' := Trigger(s, fd, e);
      && s'.fds == s.fds[fd := SetContext(s.fds[fd], e, EMPTY).(events := s.fds[fd].events - {e})]
      && s'.pending == s.pending - 1 && s'.kernel == s.kernel
      && RecOk(s'.fds[fd])
  {
  }

  lemma CancelAgrees(s: State, fd: nat, e: Event, fault: bool)
    requires Agrees(s)
    ensures At(s, fd)
    ensures var (s', r) := CancelEvent(s, fd, e, fault);
      && (r == Done <==> fd < |s.fds| && e in s.fds[fd].events && !fault)
      && r != Aborted && (r == Refused ==> s' == s)
      && Agrees(s')
  {
    assert At(s, fd);
    if fd < |s.fds| && e in s.fds[fd].events && !fault {
      var s' := CancelEvent(s, fd, e, fault).0;
      TriggerEmpties(s.(kernel := s'.kernel), fd, e);
      RemovedAgrees(s, fd, e, s');
    }
  }

  /** One of the events or both are triggered after the kernel was told. */
  lemma TriggeredAgrees(s: State, fd: nat, gone: set<Event>, s': State)
    requires Agrees(s) && At(s, fd) && fd < |s.fds| && gone <= s.fds[fd].events
    requires var left := s.fds[fd].events - gone;
      var told := s.(kernel := if left == {} then s.kernel - {fd} else s.kernel[fd := left]);
      s' == TriggerIf(TriggerIf(told, fd, Read, Read in gone), fd, Write, Write in gone)
    ensures Agrees(s') && s'.fds[fd].events == s.fds[fd].events - gone
  {
    assert At(s, fd);
    var f := s.fds[fd];
    var left := f.events - gone;
    var told := s.(kernel := if left == {} then s.kernel - {fd} else s.kernel[fd := left]);
    var mid := TriggerIf(told, fd, Read, Read in gone);
    if Read in gone {
      TriggerEmpties(told, fd, Read);
    }
    if Write in gone {
      TriggerEmpties(mid, fd, Write);
    }
    forall e: Event ensures e in s'.fds[fd].events <==> e in left {
      assert e == Read || e == Write;
    }
    assert s'.fds[fd].events == left;
    assert s'.fds == s.fds[fd := s'.fds[fd]];
    RecordChanged(s, fd, s'.fds[fd], s');
  }

  lemma CancelAllAgrees(s: State, fd: nat, fault: bool)
    requires Agrees(s)
    ensures At(s, fd)
    ensures var (s', r) := CancelAll(s, fd, fault);
      && (r == Done <==> fd < |s.fds| && s.fds[fd].events != {} && !fault)
      && r != Aborted && (r == Refused ==> s' == s)
      && (r == Done ==> fd < |s'.fds| && s'.fds[fd].events == {})
      && Agrees(s')
  {
    assert At(s, fd);
    if fd < |s.fds| && s.fds[fd].events != {} && !fault {
      assert s.fds[fd].events - s.fds[fd].events == {};
      TriggeredAgrees(s, fd, s.fds[fd].events, CancelAll(s, fd, fault).0);
    }
  }

  /** Dispatch trips an assertion exactly when some of what it takes for ready is registered and some is not. */
  lemma DispatchAgrees(s: State, fd: nat, ready: set<Flag>, fault: bool)
    requires Agrees(s) && fd < |s.fds|
    ensures At(s, fd)
    ensures var (s', r) := Dispatch(s, fd, ready, fault); var due := RealEvents(ready);
      && (r == Aborted <==> s.fds[fd].events * due != {} && !(due <= s.fds[fd].events) && !fault)
      && (r == Done <==> due != {} && due <= s.fds[fd].events && !fault)
      && (r == Refused ==> s' == s)
      && (r == Done ==> fd < |s'.fds| && s'.fds[fd].events == s.fds[fd].events - due)
      && (r != Aborted ==> Agrees(s'))
  {
    assert At(s, fd);
    var due := RealEvents(ready);
    var events := s.fds[fd].events;
    assert fd in s.kernel <==> events != {};
    if due <= events {
      assert events * due == due;
      if due != {} && !fault {
        TriggeredAgrees(s, fd, due, Dispatch(s, fd, ready, fault).0);
      }
    } else {
      assert events * due != {} ==> events != {};
    }
  }

  /** The kernel reports only what it was asked for, apart from errors and hangups. Then dispatch trips
      its assertion exactly on an error or a hangup of a descriptor with one of the two events registered. */
  lemma HangupAborts(s: State, fd: nat, ready: set<Flag>, fault: bool)
    requires Agrees(s) && fd < |s.fds|
    requires (In in ready ==> Read in s.fds[fd].events) && (Out in ready ==> Write in s.fds[fd].events)
    ensures At(s, fd)
    ensures Dispatch(s, fd, ready, fault).1 == Aborted
      <==> !fault && (Err in ready || Hup in ready) && (s.fds[fd].events == {Read} || s.fds[fd].events == {Write})
  {
    DispatchAgrees(s, fd, ready, fault);
    OnlyTwo(s.fds[fd].events);
    OnlyTwo(RealEvents(ready));
  }

  lemma OnlyTwo(events: set<Event>)
    ensures events == {} || events == {Read} || events == {Write} || events == {Read, Write}
  {
    forall e | e in events ensures e == Read || e == Write {
    }
    if Read !in events {
      assert events <= {Write};
      assert Write in events ==> events == {Write};
      assert Write !in events ==> events == {};
    } else {
      assert Write !in events ==> events == {Read};
      assert Write in events ==> events == {Read, Write};
    }
  }

  // ---- No waiter is lost, none is handed over twice ----

  /** 1 if h waits in this context, to be handed to the scheduler it came with. */
  ghost function Waiting(f: FdRec, e: Event, h: Handed): nat {
    var c := GetContext(f, e);
    if e in f.events && Occupied(c) && h == Handed(c.scheduler.value, Held(c)) then 1 else 0
  }

  ghost function WaitingRec(f: FdRec, h: Handed): nat {
    Waiting(f, Read, h) + Waiting(f, Write, h)
  }

  /** How often h is registered in the table. */
  ghost function Registered(fds: seq<FdRec>, h: Handed): nat {
    if fds == [] then 0 else Registered(fds[..|fds| - 1], h) + WaitingRec(fds[|fds| - 1], h)
  }

  lemma {:induction false} RegisteredUpdate(fds: seq<FdRec>, i: nat, f: FdRec, h: Handed)
    requires i < |fds|
    ensures Registered(fds[i := f], h) + WaitingRec(fds[i], h) == Registered(fds, h) + WaitingRec(f, h)
    decreases |fds|
  {
    var n := |fds| - 1;
    if i == n {
      assert fds[i := f][..n] == fds[..n];
    } else {
      RegisteredUpdate(fds[..n], i, f, h);
      assert fds[i := f][..n] == fds[..n][i := f];
    }
  }

  lemma {:induction false} RegisteredBlank(fds: seq<FdRec>, n: nat, h: Handed)
    ensures Registered(fds + Blank(n), h) == Registered(fds, h)
  {
    if n == 0 {
      assert fds + Blank(0) == fds;
    } else {
      var all := fds + Blank(n);
      assert all[..|all| - 1] == fds + Blank(n - 1);
      RegisteredBlank(fds, n - 1, h);
    }
  }

  /** How often h is registered or has been handed over. */
  ghost function Everywhere(s: State, h: Handed): nat {
    Registered(s.fds, h) + multiset(s.handed)[h]
  }

  ghost predicate Possible(s: State, t: Step) {
    Agrees(s) && (t.call.Ready? ==> t.call.fd < |s.fds|) && Apply(s, t).1 != Aborted
  }

  ghost function Accepted(s: State, t: Step, h: Handed): nat
    requires Possible(s, t)
  {
    if t.call.Adding? && Apply(s, t).1 == Done && h == Handed(t.call.scheduler, t.call.w) then 1 else 0
  }

  /** delEvent gives up its waiter to nobody. */
  ghost function Dropped(s: State, t: Step, h: Handed): nat
    requires Possible(s, t)
  {
    if t.call.Deleting? && t.call.fd < |s.fds| && Apply(s, t).1 == Done then
      Waiting(s.fds[t.call.fd], t.call.e, h)
    else 0
  }

  lemma AddKeepsWaiters(s: State, fd: nat, e: Event, scheduler: nat, w: Waiter, fault: bool,
                        h: Handed)
    requires Agrees(s) && AddEvent(s, fd, e, scheduler, w, fault).1 != Aborted
    ensures var (s', r) := AddEvent(s, fd, e, scheduler, w, fault);
      Everywhere(s', h) == Everywhere(s, h) + if r == Done && h == Handed(scheduler, w) then 1 else 0
  {
    AddInSteps(s, fd, e, scheduler, w, fault);
    var fds := Grown(s.fds, fd);
    if fd >= |s.fds| {
      RegisteredBlank(s.fds, fd * 3 / 2 - |s.fds|, h);
    }
    JoinedWaiter(fds, fd, e, scheduler, w, h);
  }

  lemma JoinedWaiter(fds: seq<FdRec>, fd: nat, e: Event, scheduler: nat, w: Waiter, h: Handed)
    requires fd < |fds|
    ensures e !in fds[fd].events ==>
      Registered(fds[fd := Joined(fds[fd], e, scheduler, w)], h)
      == Registered(fds, h) + if h == Handed(scheduler, w) then 1 else 0
  {
    var f := Joined(fds[fd], e, scheduler, w);
    RegisteredUpdate(fds, fd, f, h);
    var other := if e == Read then Write else Read;
    assert GetContext(f, other) == GetContext(fds[fd], other);
    assert Waiting(f, other, h) == Waiting(fds[fd], other, h);
  }

  lemma RemovedWaiter(fds: seq<FdRec>, fd: nat, e: Event, f: FdRec, h: Handed)
    requires fd < |fds| && f == SetContext(fds[fd], e, EMPTY).(events := fds[fd].events - {e})
    ensures Registered(fds[fd := f], h) + Waiting(fds[fd], e, h) == Registered(fds, h)
  {
    RegisteredUpdate(fds, fd, f, h);
    var other := if e == Read then Write else Read;
    assert GetContext(f, other) == GetContext(fds[fd], other);
    assert Waiting(f, other, h) == Waiting(fds[fd], other, h);
  }

  lemma TriggerKeepsWaiters(s: State, fd: nat, e: Event, h: Handed)
    requires fd < |s.fds| && RecOk(s.fds[fd]) && e in s.fds[fd].events
    ensures ContextOk(s.fds[fd], e) && Everywhere(Trigger(s, fd, e), h) == Everywhere(s, h)
  {
    assert ContextOk(s.fds[fd], e);
    TriggerEmpties(s, fd, e);
    RemovedWaiter(s.fds, fd, e, SetContext(s.fds[fd], e, EMPTY).(events := s.fds[fd].events - {e}), h);
  }

  lemma TriggeredKeepsWaiters(s: State, fd: nat, first: bool, second: bool, h: Handed)
    requires fd < |s.fds| && RecOk(s.fds[fd])
    requires (first ==> Read in s.fds[fd].events) && (second ==> Write in s.fds[fd].events)
    ensures Everywhere(TriggerIf(TriggerIf(s, fd, Read, first), fd, Write, second), h) == Everywhere(s, h)
  {
    if first {
      TriggerKeepsWaiters(s, fd, Read, h);
    }
    if second {
      TriggerKeepsWaiters(TriggerIf(s, fd, Read, first), fd, Write, h);
    }
  }

  lemma StepAgrees(s: State, t: Step)
    requires Possible(s, t)
    ensures Agrees(Apply(s, t).0)
  {
    match t.call
    case Adding(fd, e, scheduler, w) => AddAgrees(s, fd, e, scheduler, w, t.fault);
    case Deleting(fd, e) => DelAgrees(s, fd, e, t.fault);
    case Cancelling(fd, e) => CancelAgrees(s, fd, e, t.fault);
    case CancellingAll(fd) => CancelAllAgrees(s, fd, t.fault);
    case Ready(fd, flags) => DispatchAgrees(s, fd, flags, t.fault);
  }

  /** One call: whoever was registered or handed over, and whoever is accepted now, is afterwards
      registered, handed over or dropped, each as often as before and with the scheduler it came with. */
  lemma StepKeepsWaiters(s: State, t: Step, h: Handed)
    requires Possible(s, t)
    ensures Everywhere(Apply(s, t).0, h) + Dropped(s, t, h) == Everywhere(s, h) + Accepted(s, t, h)
  {
    assert At(s, t.call.fd);
    match t.call
    case Adding(fd, e, scheduler, w) => AddKeepsWaiters(s, fd, e, scheduler, w, t.fault, h);
    case Deleting(fd, e) =>
      if Apply(s, t).1 == Done {
        RemovedWaiter(s.fds, fd, e, SetContext(s.fds[fd], e, EMPTY).(events := s.fds[fd].events - {e}), h);
      }
    case Cancelling(fd, e) =>
      if Apply(s, t).1 == Done {
        TriggerKeepsWaiters(s.(kernel := Apply(s, t).0.kernel), fd, e, h);
      }
    case CancellingAll(fd) =>
      if Apply(s, t).1 == Done {
        var events := s.fds[fd].events;
        TriggeredKeepsWaiters(s.(kernel := s.kernel - {fd}), fd, Read in events, Write in events, h);
      }
    case Ready(fd, flags) => ReadyKeepsWaiters(s, fd, flags, t.fault, h);
  }

  lemma ReadyKeepsWaiters(s: State, fd: nat, flags: set<Flag>, fault: bool, h: Handed)
    requires Agrees(s) && fd < |s.fds| && At(s, fd) && Dispatch(s, fd, flags, fault).1 != Aborted
    ensures Everywhere(Dispatch(s, fd, flags, fault).0, h) == Everywhere(s, h)
  {
    if Dispatch(s, fd, flags, fault).1 == Done {
      var due := RealEvents(flags);
      var left := s.fds[fd].events - due;
      var kernel := Controlled(s.kernel, if left != {} then Mod else Del, fd, left);
      TriggeredKeepsWaiters(s.(kernel := kernel), fd, Read in due, Write in due, h);
    }
  }

  // ---- Runs ----

  /** No assertion of the program fails, and the kernel reports on descriptors of the table. */
  ghost predicate Run(s: State, ts: seq<Step>)
    requires Agrees(s)
    decreases |ts|
  {
    ts != [] ==> Possible(s, ts[0]) && (StepAgrees(s, ts[0]); Run(Apply(s, ts[0]).0, ts[1..]))
  }

  ghost function After(s: State, ts: seq<Step>): (s': State)
    requires Agrees(s) && Run(s, ts)
    ensures Agrees(s')
    decreases |ts|
  {
    if ts == [] then s else (StepAgrees(s, ts[0]); After(Apply(s, ts[0]).0, ts[1..]))
  }

  ghost function AllAccepted(s: State, ts: seq<Step>, h: Handed): nat
    requires Agrees(s) && Run(s, ts)
    decreases |ts|
  {
    if ts == [] then 0
    else (StepAgrees(s, ts[0]); Accepted(s, ts[0], h) + AllAccepted(Apply(s, ts[0]).0, ts[1..], h))
  }

  ghost function AllDropped(s: State, ts: seq<Step>, h: Handed): nat
    requires Agrees(s) && Run(s, ts)
    decreases |ts|
  {
    if ts == [] then 0
    else (StepAgrees(s, ts[0]); Dropped(s, ts[0], h) + AllDropped(Apply(s, ts[0]).0, ts[1..], h))
  }

  lemma {:induction false} WaitersFrom(s: State, ts: seq<Step>, h: Handed)
    requires Agrees(s) && Run(s, ts)
    ensures Everywhere(After(s, ts), h) + AllDropped(s, ts, h) == Everywhere(s, h) + AllAccepted(s, ts, h)
    decreases |ts|
  {
    if ts != [] {
      StepAgrees(s, ts[0]);
      StepKeepsWaiters(s, ts[0], h);
      WaitersFrom(Apply(s, ts[0]).0, ts[1..], h);
    }
  }

  lemma StartAgrees()
    ensures Agrees(Start())
  {
    CountBlank([], FIRST_SIZE);
    assert [] + Blank(FIRST_SIZE) == Blank(FIRST_SIZE);
  }

  /** Waiter conservation over every run: as often as a waiter was accepted for a scheduler, it is still
      registered, or was handed to that scheduler, or was dropped by delEvent. */
  lemma WaiterConservation(ts: seq<Step>, h: Handed)
    requires (StartAgrees(); Run(Start(), ts))
    ensures (
      StartAgrees();
      var s := After(Start(), ts);
      Registered(s.fds, h) + multiset(s.handed)[h] + AllDropped(Start(), ts, h) == AllAccepted(Start(), ts, h))
  {
    StartAgrees();
    RegisteredBlank([], FIRST_SIZE, h);
    assert [] + Blank(FIRST_SIZE) == Blank(FIRST_SIZE);
    WaitersFrom(Start(), ts, h);
  }
}
