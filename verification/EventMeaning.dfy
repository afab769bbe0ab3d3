/** What one call does to the event table, told without its steps: the events of its one descriptor and
    who is handed over.
 */
module EventMeaning {
  import opened EventSpec
  import opened EventProofs

  function EventsOf(s: State, fd: nat): set<Event> {
    if fd < |s.fds| then s.fds[fd].events else {}
  }

  /** The events a call takes away when it is done, with their waiters handed over or not. */
  function Gone(s: State, c: Call): set<Event> {
    match c
    case Adding(_, _, _, _) => {}
    case Deleting(_, e) => {e}
    case Cancelling(_, e) => {e}
    case CancellingAll(fd) => EventsOf(s, fd)
    case Ready(_, flags) => RealEvents(flags)
  }

  /** The waiters of these events, reader first. */
  function Waiters(f: FdRec, events: set<Event>): seq<Handed>
    requires RecOk(f) && events <= f.events
  {
    assert ContextOk(f, Read) && ContextOk(f, Write);
    (if Read in events then [Handed(f.read.scheduler.value, Held(f.read))] else [])
    + if Write in events then [Handed(f.write.scheduler.value, Held(f.write))] else []
  }

  lemma TriggersMean(s: State, fd: nat, events: set<Event>)
    requires fd < |s.fds| && RecOk(s.fds[fd]) && events <= s.fds[fd].events
    ensures var s' := TriggerIf(TriggerIf(s, fd, Read, Read in events), fd, Write, Write in events);
      && s'.handed == s.handed + Waiters(s.fds[fd], events) && s'.kernel == s.kernel
      && |s'.fds| == |s.fds| && s'.fds[fd].events == s.fds[fd].events - events
      && forall i :: 0 <= i < |s.fds| && i != fd ==> s'.fds[i] == s.fds[i]
  {
    assert ContextOk(s.fds[fd], Read) && ContextOk(s.fds[fd], Write);
    var s1 := TriggerIf(s, fd, Read, Read in events);
    assert s1.handed == s.handed + if Read in events then Waiters(s.fds[fd], {Read}) else [];
    assert s1.fds[fd].write == s.fds[fd].write;
    var s2 := TriggerIf(s1, fd, Write, Write in events);
    forall e: Event ensures e in s.fds[fd].events - events <==> e in s2.fds[fd].events {
      assert e == Read || e == Write;
    }
  }

  /** A cancelEvent is a trigger of the one event. */
  lemma OneTrigger(s: State, fd: nat, e: Event)
    requires fd < |s.fds| && RecOk(s.fds[fd]) && e in s.fds[fd].events
    ensures ContextOk(s.fds[fd], e)
    ensures Trigger(s, fd, e) == TriggerIf(TriggerIf(s, fd, Read, Read in {e}), fd, Write, Write in {e})
  {
    assert ContextOk(s.fds[fd], e);
    assert e == Read || e == Write;
  }

  /** The events of the call's descriptor: one more, or those taken away fewer, or the same when refused. */
  ghost predicate EventsMean(s: State, t: Step, s': State, r: Outcome) {
    EventsOf(s', t.call.fd) ==
    if r != Done then EventsOf(s, t.call.fd)
    else if t.call.Adding? then EventsOf(s, t.call.fd) + {t.call.e}
    else EventsOf(s, t.call.fd) - Gone(s, t.call)
  }

  /** No other descriptor changes, in the table or in the kernel. */
  ghost predicate TouchesOne(s: State, t: Step, s': State) {
    && |s.fds| <= |s'.fds|
    && (forall i :: 0 <= i < |s.fds| && i != t.call.fd ==> s'.fds[i] == s.fds[i])
    && (forall i :: |s.fds| <= i < |s'.fds| && i != t.call.fd ==> s'.fds[i] == FdRec({}, EMPTY, EMPTY))
    && s'.kernel - {t.call.fd} == s.kernel - {t.call.fd}
  }

  lemma AddMeans(s: State, t: Step)
    requires Possible(s, t) && t.call.Adding?
    ensures var (s', r) := Apply(s, t);
      EventsMean(s, t, s', r) && TouchesOne(s, t, s') && s'.handed == s.handed
  {
    var Adding(fd, e, scheduler, w) := t.call;
    AddInSteps(s, fd, e, scheduler, w, t.fault);
    GrownHolds(s.fds, fd);
    var g := Grown(s.fds, fd);
    forall i | 0 <= i < |s.fds| ensures g[i] == s.fds[i] {
      assert g[..|s.fds|][i] == g[i];
    }
  }

  lemma DelMeans(s: State, t: Step)
    requires Possible(s, t) && t.call.Deleting?
    ensures var (s', r) := Apply(s, t);
      EventsMean(s, t, s', r) && TouchesOne(s, t, s') && s'.handed == s.handed
  {
  }

  /** Told to the kernel and triggered. */
  lemma ToldAndTriggered(s: State, fd: nat, kernel: map<nat, set<Event>>, events: set<Event>)
    requires At(s, fd) && fd < |s.fds| && events <= s.fds[fd].events && kernel - {fd} == s.kernel - {fd}
    ensures var told := s.(kernel := kernel);
      var s' := TriggerIf(TriggerIf(told, fd, Read, Read in events), fd, Write, Write in events);
      && s'.handed == s.handed + Waiters(s.fds[fd], events) && s'.kernel - {fd} == s.kernel - {fd}
      && |s'.fds| == |s.fds| && s'.fds[fd].events == s.fds[fd].events - events
      && forall i :: 0 <= i < |s.fds| && i != fd ==> s'.fds[i] == s.fds[i]
  {
    TriggersMean(s.(kernel := kernel), fd, events);
  }

  lemma CancelMeans(s: State, t: Step)
    requires Possible(s, t) && t.call.Cancelling? && Apply(s, t).1 == Done
    ensures At(s, t.call.fd) && t.call.fd < |s.fds| && t.call.e in s.fds[t.call.fd].events
    ensures var s' := Apply(s, t).0;
      && EventsMean(s, t, s', Done) && TouchesOne(s, t, s')
      && s'.handed == s.handed + Waiters(s.fds[t.call.fd], {t.call.e})
  {
    var fd, e := t.call.fd, t.call.e;
    assert At(s, fd);
    var left := s.fds[fd].events - {e};
    var kernel := Controlled(s.kernel, if left != {} then Mod else Del, fd, left);
    assert kernel - {fd} == s.kernel - {fd};
    OneTrigger(s.(kernel := kernel), fd, e);
    ToldAndTriggered(s, fd, kernel, {e});
  }

  lemma CancelAllMeans(s: State, t: Step)
    requires Possible(s, t) && t.call.CancellingAll? && Apply(s, t).1 == Done
    ensures At(s, t.call.fd) && t.call.fd < |s.fds|
    ensures var s' := Apply(s, t).0;
      && EventsMean(s, t, s', Done) && TouchesOne(s, t, s')
      && s'.handed == s.handed + Waiters(s.fds[t.call.fd], s.fds[t.call.fd].events)
  {
    var fd := t.call.fd;
    assert At(s, fd);
    assert (s.kernel - {fd}) - {fd} == s.kernel - {fd};
    ToldAndTriggered(s, fd, s.kernel - {fd}, s.fds[fd].events);
  }

  lemma ReadyMeans(s: State, t: Step)
    requires Possible(s, t) && t.call.Ready? && Apply(s, t).1 == Done
    ensures At(s, t.call.fd) && RealEvents(t.call.flags) <= s.fds[t.call.fd].events
    ensures var s' := Apply(s, t).0;
      && EventsMean(s, t, s', Done) && TouchesOne(s, t, s')
      && s'.handed == s.handed + Waiters(s.fds[t.call.fd], RealEvents(t.call.flags))
  {
    var fd, due := t.call.fd, RealEvents(t.call.flags);
    assert At(s, fd);
    var left := s.fds[fd].events - due;
    var kernel := Controlled(s.kernel, if left != {} then Mod else Del, fd, left);
    assert kernel - {fd} == s.kernel - {fd};
    ToldAndTriggered(s, fd, kernel, due);
  }

  // ---- What the kernel's report stands for ----

  /** The waiter of an event, if the event is among those given over. */
  function WaiterOf(f: FdRec, e: Event, wanted: bool): seq<Handed>
    requires ContextOk(f, e) && (wanted ==> e in f.events)
  {
    if wanted then [Handed(GetContext(f, e).scheduler.value, Held(GetContext(f, e)))] else []
  }

  /** The kernel reports input or output, and only what it was asked for: then input is the reader's
      and output the writer's. The call succeeds exactly if anything is reported. */
  lemma ReportMeans(s: State, fd: nat, ready: set<Flag>)
    requires Agrees(s) && fd < |s.fds| && Err !in ready && Hup !in ready
    requires (In in ready ==> Read in s.fds[fd].events) && (Out in ready ==> Write in s.fds[fd].events)
    ensures At(s, fd) && ContextOk(s.fds[fd], Read) && ContextOk(s.fds[fd], Write)
    ensures var (s', r) := Dispatch(s, fd, ready, false); var f := s.fds[fd];
      && (r == Done <==> ready != {}) && (r != Done ==> r == Refused && s' == s)
      && (Read in EventsOf(s', fd) <==> Read in f.events && In !in ready)
      && (Write in EventsOf(s', fd) <==> Write in f.events && Out !in ready)
      && s'.handed == s.handed + WaiterOf(f, Read, In in ready) + WaiterOf(f, Write, Out in ready)
  {
    DispatchAgrees(s, fd, ready, false);
    NothingElse(ready);
    var due := RealEvents(ready);
    if ready != {} {
      ReadyMeans(s, Step(Ready(fd, ready), false));
      assert Waiters(s.fds[fd], due)
          == WaiterOf(s.fds[fd], Read, In in ready) + WaiterOf(s.fds[fd], Write, Out in ready);
    }
  }

  lemma NothingElse(ready: set<Flag>)
    requires Err !in ready && Hup !in ready
    ensures ready != {} <==> In in ready || Out in ready
    ensures ready == {} <==> RealEvents(ready) == {}
  {
    if ready != {} {
      var x :| x in ready;
      assert x == In || x == Out;
    }
  }

  /** An error or a hangup is the reader's and the writer's: with both registered both are handed over,
      with neither nobody is. */
  lemma ErrorMeans(s: State, fd: nat, ready: set<Flag>)
    requires Agrees(s) && fd < |s.fds| && (Err in ready || Hup in ready)
    requires (In in ready ==> Read in s.fds[fd].events) && (Out in ready ==> Write in s.fds[fd].events)
    ensures At(s, fd) && ContextOk(s.fds[fd], Read) && ContextOk(s.fds[fd], Write)
    ensures var (s', r) := Dispatch(s, fd, ready, false); var f := s.fds[fd];
      && (r == Done <==> Read in f.events && Write in f.events)
      && (r == Refused <==> Read !in f.events && Write !in f.events)
      && (r == Refused ==> s' == s)
      && (r == Done ==>
            EventsOf(s', fd) == {} && s'.handed == s.handed + WaiterOf(f, Read, true) + WaiterOf(f, Write, true))
  {
    DispatchAgrees(s, fd, ready, false);
    OnlyTwo(s.fds[fd].events);
    if Read in s.fds[fd].events && Write in s.fds[fd].events {
      ReadyMeans(s, Step(Ready(fd, ready), false));
      assert Waiters(s.fds[fd], RealEvents(ready))
          == WaiterOf(s.fds[fd], Read, true) + WaiterOf(s.fds[fd], Write, true);
    }
  }

  /** Every call changes the events of its descriptor as its name says and touches no other descriptor. */
  lemma CallMeans(s: State, t: Step)
    requires Possible(s, t)
    ensures var (s', r) := Apply(s, t); EventsMean(s, t, s', r) && TouchesOne(s, t, s')
  {
    match t.call
    case Adding(_, _, _, _) => AddMeans(s, t);
    case Deleting(_, _) => DelMeans(s, t);
    case _ =>
      if Apply(s, t).1 == Done {
        match t.call
        case Cancelling(_, _) => CancelMeans(s, t);
        case CancellingAll(_) => CancelAllMeans(s, t);
        case Ready(_, _) => ReadyMeans(s, t);
      } else {
        StepAgrees(s, t);
        RefusedIsNothing(s, t);
      }
  }

  lemma RefusedIsNothing(s: State, t: Step)
    requires Possible(s, t) && Apply(s, t).1 == Refused && !t.call.Adding?
    ensures Apply(s, t).0 == s
  {
    assert At(s, t.call.fd);
  }
}
