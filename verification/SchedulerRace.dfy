/** Schedulers of fibers that look first whether a fiber is queued: when a fiber gets a second queue entry
    all the same, and a run in which it does because it is taken too early, until an assertion fires.
 */
module SchedulerRace {
  import opened Options
  import opened Scheduler
  import opened SchedulerDiscipline
  import opened SchedulerExact

  // ---- One entry per fiber ----

  /** Whoever schedules a fiber sees to it that it is not queued. */
  predicate Once(s: State, a: Action) {
    match a
    case Outside(e) => e.work.FiberWork? ==> !Queued(s, e.work.fiber)
    case Push(_, e) => e.work.FiberWork? ==> !Queued(s, e.work.fiber)
    case _ => true
  }

  /** No fiber has two queue entries. */
  predicate Single(s: State) {
    forall i, j :: 0 <= i < j < |s.queue| && s.queue[i].work.FiberWork? ==> s.queue[i].work != s.queue[j].work
  }

  lemma Appended(s: State, s': State, e: Entry)
    requires Single(s) && s'.queue == s.queue + [e]
    ensures Single(s') <==> (e.work.FiberWork? ==> !Queued(s, e.work.fiber))
  {
    if e.work.FiberWork? && Queued(s, e.work.fiber) {
      var i :| 0 <= i < |s.queue| && s.queue[i].work == e.work;
      assert s'.queue[i].work == s'.queue[|s.queue|].work;
    }
  }

  lemma ScanKeepsSingle(s: State, w: nat)
    requires Single(s) && Enabled(s, Scan(w))
    ensures Single(Step(s, Scan(w)))
  {
    match FirstRunnable(s, w, 0)
    case None =>
    case Some(k) =>
      var q := Step(s, Scan(w)).queue;
      forall i, j | 0 <= i < j < |q| && q[i].work.FiberWork? ensures q[i].work != q[j].work {
        assert q[i] == s.queue[if i < k then i else i + 1] && q[j] == s.queue[if j < k then j else j + 1];
      }
  }

  /** Then a fiber gets a second entry exactly when a worker, back from it, sees READY and it is queued. */
  lemma SecondEntryIff(s: State, a: Action)
    requires Single(s) && Enabled(s, a) && Once(s, a)
    ensures Single(Step(s, a)) <==>
      !(a.Settle? && s.Of(s.workers[a.w].pc.fiber) == Ready && Queued(s, s.workers[a.w].pc.fiber))
  {
    match a
    case Outside(e) => Appended(s, Step(s, a), e);
    case Push(_, e) => Appended(s, Step(s, a), e);
    case Scan(w) => ScanKeepsSingle(s, w);
    case Settle(w) =>
      var f := s.workers[w].pc.fiber;
      if s.Of(f) == Ready {
        Appended(s, Step(s, a), Entry(FiberWork(f), None));
      } else {
        assert Step(s, a).queue == s.queue;
      }
    case _ => assert Step(s, a).queue == s.queue;
  }

  /** The step makes a queue entry. */
  predicate Enqueues(s: State, a: Action)
    requires Enabled(s, a)
  {
    |Step(s, a).queue| > |s.queue|
  }

  /** A run of such schedulers in which no fiber has two entries but perhaps at the very end; log lists the
      steps that make an entry. */
  ghost predicate OnceRun(s: State, actions: seq<Action>, s': State, log: seq<Action>)
    decreases |actions|
  {
    if actions == [] then s == s' && log == []
    else
      var a := actions[0];
      && Single(s) && Enabled(s, a) && Once(s, a)
      && if Enqueues(s, a) then log != [] && log[0] == a && OnceRun(Step(s, a), actions[1..], s', log[1..])
         else OnceRun(Step(s, a), actions[1..], s', log)
  }

  // ---- Taken too early ----

  /** Two workers and one fiber, number 7, in state x. */
  function Pair(queue: seq<Entry>, x: FiberState, active: int, pc0: Pc, pc1: Pc): State {
    State(queue, map[7 := x], 8, active, false, false, [Worker(pc0, None, Init), Worker(pc1, None, Init)], false)
  }

  const SEVEN := Entry(FiberWork(7), None)

  /** One worker moves, and fiber 7 changes its state or does not. */
  lemma PairMoved(queue: seq<Entry>, x: FiberState, active: int, pc0: Pc, pc1: Pc, y: FiberState, pc: Pc)
    ensures var s := Pair(queue, x, active, pc0, pc1);
      && s.Goto(0, pc) == Pair(queue, x, active, pc, pc1)
      && s.Goto(1, pc) == Pair(queue, x, active, pc0, pc)
      && s.Set(7, y).Goto(0, pc) == Pair(queue, y, active, pc, pc1)
      && s.Set(7, y).Goto(1, pc) == Pair(queue, y, active, pc0, pc)
  {
    assert map[7 := x][7 := y] == map[7 := y];
    var w0, w1, w := Worker(pc0, None, Init), Worker(pc1, None, Init), Worker(pc, None, Init);
    assert [w0, w1][0 := w] == [w, w1] && [w0, w1][1 := w] == [w0, w];
  }

  lemma First(s: State, a: Action, m: State, rest: seq<Action>, s': State, log: seq<Action>)
    returns (actions: seq<Action>)
    requires Enabled(s, a) && Step(s, a) == m && Single(s) && Once(s, a) && OnceRun(m, rest, s', log)
    ensures OnceRun(s, actions, s', if Enqueues(s, a) then [a] + log else log)
  {
    actions := [a] + rest;
    assert actions[1..] == rest && ([a] + log)[1..] == log;
  }

  lemma TakenAndBegun(s: State, rest: seq<Action>, s': State, log: seq<Action>) returns (actions: seq<Action>)
    requires s == Pair([], Exec, 1, Running(7, false, true), Scanning) && OnceRun(s, rest, s', log)
    ensures OnceRun(Pair([SEVEN], Hold, 0, Scanning, Scanning), actions, s', log)
  {
    PairMoved([], Hold, 1, Taken(FiberWork(7)), Scanning, Exec, Running(7, false, true));
    PairMoved([SEVEN], Hold, 0, Scanning, Scanning, Hold, Taken(FiberWork(7)));
    actions := First(Pair([], Hold, 1, Taken(FiberWork(7)), Scanning), Begin(0), s, rest, s', log);
    actions := First(Pair([SEVEN], Hold, 0, Scanning, Scanning), Scan(0),
                     Pair([], Hold, 1, Taken(FiberWork(7)), Scanning), actions, s', log);
  }

  lemma PushedAndHeld(s: State, rest: seq<Action>, s': State, log: seq<Action>) returns (actions: seq<Action>)
    requires s == Pair([SEVEN], Hold, 1, Back(7, false, Hold), Scanning) && OnceRun(s, rest, s', log)
    ensures OnceRun(Pair([], Exec, 1, Running(7, false, true), Scanning), actions, s', [Push(0, SEVEN)] + log)
  {
    actions := First(Pair([SEVEN], Exec, 1, Running(7, false, true), Scanning), Yield(0, Hold), s, rest, s', log);
    actions := First(Pair([], Exec, 1, Running(7, false, true), Scanning), Push(0, SEVEN),
                     Pair([SEVEN], Exec, 1, Running(7, false, true), Scanning), actions, s', log);
  }

  lemma TakenByTheOther(back: Pc, s: State, rest: seq<Action>, s': State, log: seq<Action>)
    returns (actions: seq<Action>)
    requires s == Pair([], Exec, 2, back, Running(7, false, true)) && OnceRun(s, rest, s', log)
    ensures OnceRun(Pair([SEVEN], Hold, 1, back, Scanning), actions, s', log)
  {
    PairMoved([], Hold, 2, back, Taken(FiberWork(7)), Exec, Running(7, false, true));
    PairMoved([SEVEN], Hold, 1, back, Scanning, Hold, Taken(FiberWork(7)));
    actions := First(Pair([], Hold, 2, back, Taken(FiberWork(7))), Begin(1), s, rest, s', log);
    actions := First(Pair([SEVEN], Hold, 1, back, Scanning), Scan(1),
                     Pair([], Hold, 2, back, Taken(FiberWork(7))), actions, s', log);
  }

  lemma SettledByTheOther(back: Pc, s: State, rest: seq<Action>, s': State, log: seq<Action>)
    returns (actions: seq<Action>)
    requires s == Pair([SEVEN], Ready, 1, back, Scanning) && OnceRun(s, rest, s', log)
    ensures OnceRun(Pair([], Ready, 1, back, Booked(7, false, Ready)), actions, s', [Settle(1)] + log)
  {
    actions := First(Pair([], Ready, 1, back, Booked(7, false, Ready)), Settle(1), s, rest, s', log);
  }

  lemma BookedByTheOther(back: Pc, rest: seq<Action>, s': State, log: seq<Action>) returns (actions: seq<Action>)
    requires OnceRun(Pair([], Ready, 1, back, Booked(7, false, Ready)), rest, s', log)
    ensures OnceRun(Pair([], Exec, 2, back, Running(7, false, true)), actions, s', log)
  {
    PairMoved([], Ready, 2, back, Back(7, false, Ready), Ready, Booked(7, false, Ready));
    PairMoved([], Exec, 2, back, Running(7, false, true), Ready, Back(7, false, Ready));
    actions := First(Pair([], Ready, 2, back, Back(7, false, Ready)), Book(1),
                     Pair([], Ready, 1, back, Booked(7, false, Ready)), rest, s', log);
    actions := First(Pair([], Exec, 2, back, Running(7, false, true)), Yield(1, Ready),
                     Pair([], Ready, 2, back, Back(7, false, Ready)), actions, s', log);
  }

  lemma RequeuedByTheOther(back: Pc, s: State, rest: seq<Action>, s': State, log: seq<Action>)
    returns (actions: seq<Action>)
    requires s == Pair([SEVEN], Ready, 1, back, Scanning) && OnceRun(s, rest, s', log)
    ensures OnceRun(Pair([], Exec, 2, back, Running(7, false, true)), actions, s', [Settle(1)] + log)
  {
    actions := SettledByTheOther(back, s, rest, s', log);
    actions := BookedByTheOther(back, actions, s', [Settle(1)] + log);
  }

  lemma RequeuedAgain(s: State) returns (actions: seq<Action>)
    requires s == Pair([SEVEN, SEVEN], Ready, 0, Scanning, Scanning)
    ensures OnceRun(Pair([SEVEN], Ready, 1, Back(7, false, Hold), Scanning), actions, s, [Settle(0)])
  {
    actions := First(Pair([SEVEN], Ready, 0, Booked(7, false, Hold), Scanning), Settle(0), s, [], s, []);
    assert [Settle(0)] + [] == [Settle(0)];
    actions := First(Pair([SEVEN], Ready, 1, Back(7, false, Hold), Scanning), Book(0),
                     Pair([SEVEN], Ready, 0, Booked(7, false, Hold), Scanning), actions, s, [Settle(0)]);
  }

  /** Fiber 7, which has one entry, schedules itself once and yields HOLD, as switchTo does. Before its
      worker has looked at how it came back, the other worker takes it, and it yields READY. Both workers
      then see READY and put it back: these are all the entries made, and no fiber had two before. */
  lemma TakenTooEarlyIsRequeuedTwice() returns (s: State, actions: seq<Action>, s': State)
    ensures Initial(s) && s.queue == [SEVEN]
    ensures OnceRun(s, actions, s', [Push(0, SEVEN), Settle(1), Settle(0)]) && s'.queue == [SEVEN, SEVEN]
    ensures s' == Pair([SEVEN, SEVEN], Ready, 0, Scanning, Scanning)
  {
    s := Pair([SEVEN], Hold, 0, Scanning, Scanning);
    s' := Pair([SEVEN, SEVEN], Ready, 0, Scanning, Scanning);
    var back := Back(7, false, Hold);
    actions := RequeuedAgain(s');
    actions := RequeuedByTheOther(back, Pair([SEVEN], Ready, 1, back, Scanning), actions, s', [Settle(0)]);
    var log := [Settle(1), Settle(0)];
    assert [Settle(1)] + [Settle(0)] == log;
    actions := TakenByTheOther(back, Pair([], Exec, 2, back, Running(7, false, true)), actions, s', log);
    actions := PushedAndHeld(Pair([SEVEN], Hold, 1, back, Scanning), actions, s', log);
    assert [Push(0, SEVEN)] + log == [Push(0, SEVEN), Settle(1), Settle(0)];
    actions := TakenAndBegun(Pair([], Exec, 1, Running(7, false, true), Scanning), actions, s',
                             [Push(0, SEVEN), Settle(1), Settle(0)]);
  }

  /** That run goes on, by the workers' own steps alone, until an assertion fires. */
  lemma TakenTooEarlyAborts() returns (s: State, actions: seq<Action>, m: State, more: seq<Action>, s': State)
    ensures Initial(s) && s.queue == [SEVEN]
    ensures OnceRun(s, actions, m, [Push(0, SEVEN), Settle(1), Settle(0)]) && m.queue == [SEVEN, SEVEN]
    ensures QuietRun(m, more, s') && s'.aborted
  {
    s, actions, m := TakenTooEarlyIsRequeuedTwice();
    TwoEntries(m, 0, 1, 7);
    more, s' :| QuietRun(m, more, s') && s'.aborted;
  }
}
