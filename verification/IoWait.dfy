/** The waiting protocol of do_io as steps of many calls on one event of one descriptor: try, start a
    timer, register the event, yield, wake, cancel the timer, look whether the timer had run, try again.
    Readiness, expiry, timer callbacks and the clock interleave with the calls in any way.
 */
module IoWait {
  import opened Options

  /** A conditional timer: Collected means that a sweep has handed its callback to the scheduler. */
  datatype Life = Pending | Collected | Cancelled | Ran

  datatype Timer = Timer(deadline: nat, life: Life)

  datatype Result = Returned | Failed | TimedOut

  datatype Pc = Trying | NeedTimer | NeedEvent | Registered | Parked | Resumed | Checking | Finished(result: Result)

  /** One call. Its tcond lives until it finishes; `cancelled` is tcond->cancelled being ETIMEDOUT. */
  datatype Call = Call(start: nat, timeout: Option<nat>, pc: Pc, timers: seq<Timer>, cancelled: bool)

  datatype State = State(
    now: nat,
    calls: seq<Call>,
    slot: Option<nat>,        // whose fiber is registered for the event
    queue: multiset<nat>)     // whose fibers the scheduler has been given

  /** What the system call answers. */
  datatype Answer = Completed | Interrupted | WouldBlock

  datatype Action =
    | Tick(now: nat)
    | Begin(timeout: Option<nat>)
    | Try(i: nat, answer: Answer)
    | StartTimer(i: nat)
    | Register(i: nat, fault: bool)
    | Yield(i: nat)
    | Resume(i: nat)
    | DropTimer(i: nat)
    | Look(i: nat)
    | Wake                    // readiness, or someone else's cancelEvent or cancelAll
    | Expire(i: nat, k: nat)
    | RunCallback(i: nat, k: nat, fault: bool)   // fault: cancelEvent's epoll_ctl fails

  predicate At(s: State, i: nat, pc: Pc) {
    i < |s.calls| && s.calls[i].pc == pc
  }

  /** Register is not enabled while another fiber is registered: addEvent asserts that none is. */
  predicate Enabled(s: State, a: Action) {
    match a
    case Tick(now) => s.now <= now
    case Begin(_) => true
    case Try(i, _) => At(s, i, Trying)
    case StartTimer(i) => At(s, i, NeedTimer) && s.calls[i].timeout.Some?
    case Register(i, _) => At(s, i, NeedEvent) && s.slot == None
    case Yield(i) => At(s, i, Registered)
    case Resume(i) => At(s, i, Parked) && i in s.queue
    case DropTimer(i) => At(s, i, Resumed)
    case Look(i) => At(s, i, Checking)
    case Wake => true
    case Expire(i, k) =>
      i < |s.calls| && k < |s.calls[i].timers| && s.calls[i].timers[k].life == Pending
      && s.calls[i].timers[k].deadline <= s.now
    case RunCallback(i, k, _) =>
      i < |s.calls| && k < |s.calls[i].timers| && s.calls[i].timers[k].life == Collected
  }

  function Put(s: State, i: nat, c: Call): State
    requires i < |s.calls|
  {
    s.(calls := s.calls[i := c])
  }

  /** Timer::cancel on the timer of this park: it works unless the timer was collected. */
  function WithoutTimer(c: Call): Call {
    if c.timeout.Some? && c.timers != [] && c.timers[|c.timers| - 1].life == Pending then
      c.(timers := c.timers[|c.timers| - 1 := c.timers[|c.timers| - 1].(life := Cancelled)])
    else c
  }

  /** cancelEvent, or dispatch: whoever is registered is given to the scheduler. */
  function Triggered(s: State): State {
    if s.slot.Some? then s.(slot := None, queue := s.queue + multiset{s.slot.value}) else s
  }

  function Step(s: State, a: Action): State
    requires Enabled(s, a)
  {
    match a
    case Tick(now) => s.(now := now)
    case Begin(timeout) => s.(calls := s.calls + [Call(s.now, timeout, Trying, [], false)])
    case Try(i, answer) =>
      var c := s.calls[i];
      Put(s, i, c.(pc :=
        match answer
        case Completed => Finished(Returned)
        case Interrupted => Trying
        case WouldBlock => if c.timeout.Some? then NeedTimer else NeedEvent))
    case StartTimer(i) =>
      var c := s.calls[i];
      Put(s, i, c.(pc := NeedEvent, timers := c.timers + [Timer(s.now + c.timeout.value, Pending)]))
    case Register(i, fault) =>
      var c := s.calls[i];
      if fault then Put(s, i, WithoutTimer(c).(pc := Finished(Failed)))
      else Put(s, i, c.(pc := Registered)).(slot := Some(i))
    case Yield(i) => Put(s, i, s.calls[i].(pc := Parked))
    case Resume(i) => Put(s, i, s.calls[i].(pc := Resumed)).(queue := s.queue - multiset{i})
    case DropTimer(i) => Put(s, i, WithoutTimer(s.calls[i]).(pc := Checking))
    case Look(i) =>
      var c := s.calls[i];
      Put(s, i, c.(pc := if c.cancelled then Finished(TimedOut) else Trying))
    case Wake => Triggered(s)
    case Expire(i, k) => Put(s, i, SetLife(s.calls[i], k, Collected))
    case RunCallback(i, k, fault) =>
      var c := s.calls[i];
      if c.pc.Finished? || c.cancelled then Put(s, i, SetLife(c, k, Ran))
      else
        var s1 := Put(s, i, SetLife(c, k, Ran).(cancelled := true));
        if fault then s1 else Triggered(s1)
  }

  function SetLife(c: Call, k: nat, life: Life): Call
    requires k < |c.timers|
  {
    c.(timers := c.timers[k := c.timers[k].(life := life)])
  }

  // ---- What every step keeps ----

  predicate Waiting(pc: Pc) {
    pc == Registered || pc == Parked
  }

  /** A timer of this call stands a full timeout after the call began, and was collected no sooner. */
  predicate TimerOk(c: Call, k: nat, now: nat) {
    k < |c.timers| ==>
      && c.timeout.Some? && c.timers[k].deadline >= c.start + c.timeout.value
      && (c.timers[k].life == Collected || c.timers[k].life == Ran ==> c.timers[k].deadline <= now)
      && (c.timers[k].life == Ran && !c.pc.Finished? ==> c.cancelled)
  }

  /** The timers of a call, as far as the invariant goes. */
  ghost predicate TimersOk(c: Call, now: nat) {
    forall k: nat :: TimerOk(c, k, now)
  }

  ghost predicate SomeRan(c: Call) {
    exists k :: 0 <= k < |c.timers| && c.timers[k].life == Ran
  }

  /** The last timer's callback is still to come. */
  predicate TimeoutAhead(c: Call) {
    c.timers != [] && (c.timers[|c.timers| - 1].life == Pending || c.timers[|c.timers| - 1].life == Collected)
  }

  ghost predicate CallOk(s: State, i: nat) {
    if i < |s.calls| then
      var c := s.calls[i];
      && (if s.slot == Some(i) then 1 else 0) + s.queue[i] == (if Waiting(c.pc) then 1 else 0)
      && c.start <= s.now && TimersOk(c, s.now)
      && (c.cancelled ==> SomeRan(c))
      && (c.pc == Finished(TimedOut) ==> c.cancelled)
      && (c.timeout.Some? && (c.pc == NeedEvent || Waiting(c.pc)) && !c.cancelled ==> TimeoutAhead(c))
    else s.slot != Some(i) && s.queue[i] == 0
  }

  ghost predicate Invariant(s: State) {
    forall i: nat :: CallOk(s, i)
  }

  /** Only the program counter moved, within a call that goes on. */
  lemma MovedOk(c: Call, pc: Pc, now: nat)
    requires TimersOk(c, now) && !c.pc.Finished?
    ensures TimersOk(c.(pc := pc), now)
    ensures SomeRan(c) ==> SomeRan(c.(pc := pc))
  {
    forall k: nat ensures TimerOk(c.(pc := pc), k, now) {
      assert TimerOk(c, k, now);
    }
    if SomeRan(c) {
      var k :| 0 <= k < |c.timers| && c.timers[k].life == Ran;
      assert c.(pc := pc).timers[k].life == Ran;
    }
  }

  lemma WithoutTimerOk(c: Call, now: nat)
    requires TimersOk(c, now)
    ensures TimersOk(WithoutTimer(c), now)
    ensures SomeRan(c) ==> SomeRan(WithoutTimer(c))
  {
    var c' := WithoutTimer(c);
    forall k: nat ensures TimerOk(c', k, now) {
      assert TimerOk(c, k, now);
    }
    if SomeRan(c) {
      var k :| 0 <= k < |c.timers| && c.timers[k].life == Ran;
      assert c'.timers[k].life == Ran;
    }
  }

  lemma SetLifeOk(c: Call, k: nat, life: Life, now: nat, cancelled: bool)
    requires TimersOk(c, now) && k < |c.timers| && c.timers[k].deadline <= now
    requires
      if life == Ran then (c.pc.Finished? || cancelled) && (c.cancelled ==> cancelled)
      else life == Collected && cancelled == c.cancelled && c.timers[k].life == Pending
    ensures TimersOk(SetLife(c, k, life).(cancelled := cancelled), now)
    ensures SomeRan(c) || life == Ran ==> SomeRan(SetLife(c, k, life).(cancelled := cancelled))
  {
    var c' := SetLife(c, k, life).(cancelled := cancelled);
    forall n: nat ensures TimerOk(c', n, now) {
      assert TimerOk(c, n, now);
    }
    if life == Ran {
      assert c'.timers[k].life == Ran;
    } else if SomeRan(c) {
      var n :| 0 <= n < |c.timers| && c.timers[n].life == Ran;
      assert c'.timers[n].life == Ran;
    }
  }

  /** A step that rewrites one call and leaves the slot and the queue alone is no matter to the others. */
  lemma PutKeeps(s: State, i: nat, c: Call)
    requires Invariant(s) && i < |s.calls| && CallOk(Put(s, i, c), i)
    ensures Invariant(Put(s, i, c))
  {
    forall j: nat ensures CallOk(Put(s, i, c), j) {
      assert CallOk(s, j);
    }
  }

  /** A wakeup moves whoever is registered to the queue. */
  lemma TriggeredKeeps(s: State)
    requires Invariant(s)
    ensures Invariant(Triggered(s))
  {
    forall j: nat ensures CallOk(Triggered(s), j) {
      assert CallOk(s, j);
    }
  }

  lemma TryKeeps(s: State, i: nat, answer: Answer)
    requires Invariant(s) && Enabled(s, Try(i, answer))
    ensures Invariant(Step(s, Try(i, answer)))
  {
    assert CallOk(s, i) && TimersOk(s.calls[i], s.now);
    var c := Step(s, Try(i, answer)).calls[i];
    MovedOk(s.calls[i], c.pc, s.now);
    assert c.pc == NeedEvent ==> s.calls[i].timeout.None?;
    PutKeeps(s, i, c);
  }

  lemma StartTimerKeeps(s: State, i: nat)
    requires Invariant(s) && Enabled(s, StartTimer(i))
    ensures Invariant(Step(s, StartTimer(i)))
  {
    assert CallOk(s, i) && TimersOk(s.calls[i], s.now);
    var b := s.calls[i];
    var c := Step(s, StartTimer(i)).calls[i];
    forall k: nat ensures TimerOk(c, k, s.now) {
      assert TimerOk(b, k, s.now);
      assert c.start <= s.now;
    }
    if SomeRan(b) {
      var k :| 0 <= k < |b.timers| && b.timers[k].life == Ran;
      assert c.timers[k].life == Ran;
    }
    PutKeeps(s, i, c);
  }

  lemma RegisterKeeps(s: State, i: nat, fault: bool)
    requires Invariant(s) && Enabled(s, Register(i, fault))
    ensures Invariant(Step(s, Register(i, fault)))
  {
    assert CallOk(s, i) && TimersOk(s.calls[i], s.now);
    var c := s.calls[i];
    if fault {
      WithoutTimerOk(c, s.now);
      MovedOk(WithoutTimer(c), Finished(Failed), s.now);
      PutKeeps(s, i, WithoutTimer(c).(pc := Finished(Failed)));
    } else {
      MovedOk(c, Registered, s.now);
      var s' := Step(s, Register(i, fault));
      forall j: nat ensures CallOk(s', j) {
        assert CallOk(s, j);
      }
    }
  }

  lemma YieldKeeps(s: State, i: nat)
    requires Invariant(s) && Enabled(s, Yield(i))
    ensures Invariant(Step(s, Yield(i)))
  {
    assert CallOk(s, i) && TimersOk(s.calls[i], s.now);
    MovedOk(s.calls[i], Parked, s.now);
    PutKeeps(s, i, s.calls[i].(pc := Parked));
  }

  lemma ResumeKeeps(s: State, i: nat)
    requires Invariant(s) && Enabled(s, Resume(i))
    ensures Invariant(Step(s, Resume(i)))
  {
    assert CallOk(s, i) && TimersOk(s.calls[i], s.now);
    MovedOk(s.calls[i], Resumed, s.now);
    var s' := Step(s, Resume(i));
    forall j: nat ensures CallOk(s', j) {
      assert CallOk(s, j);
    }
  }

  lemma DropTimerKeeps(s: State, i: nat)
    requires Invariant(s) && Enabled(s, DropTimer(i))
    ensures Invariant(Step(s, DropTimer(i)))
  {
    assert CallOk(s, i) && TimersOk(s.calls[i], s.now);
    WithoutTimerOk(s.calls[i], s.now);
    MovedOk(WithoutTimer(s.calls[i]), Checking, s.now);
    PutKeeps(s, i, WithoutTimer(s.calls[i]).(pc := Checking));
  }

  lemma LookKeeps(s: State, i: nat)
    requires Invariant(s) && Enabled(s, Look(i))
    ensures Invariant(Step(s, Look(i)))
  {
    assert CallOk(s, i) && TimersOk(s.calls[i], s.now);
    var c := Step(s, Look(i)).calls[i];
    MovedOk(s.calls[i], c.pc, s.now);
    PutKeeps(s, i, c);
  }

  lemma ExpireKeeps(s: State, i: nat, k: nat)
    requires Invariant(s) && Enabled(s, Expire(i, k))
    ensures Invariant(Step(s, Expire(i, k)))
  {
    assert CallOk(s, i) && TimersOk(s.calls[i], s.now);
    var c := s.calls[i];
    SetLifeOk(c, k, Collected, s.now, c.cancelled);
    assert SetLife(c, k, Collected) == SetLife(c, k, Collected).(cancelled := c.cancelled);
    PutKeeps(s, i, SetLife(c, k, Collected));
  }

  lemma RunCallbackKeeps(s: State, i: nat, k: nat, fault: bool)
    requires Invariant(s) && Enabled(s, RunCallback(i, k, fault))
    ensures Invariant(Step(s, RunCallback(i, k, fault)))
  {
    assert CallOk(s, i) && TimersOk(s.calls[i], s.now);
    var c := s.calls[i];
    assert TimerOk(c, k, s.now);
    var cancelled := c.cancelled || !c.pc.Finished?;
    SetLifeOk(c, k, Ran, s.now, cancelled);
    var c' := SetLife(c, k, Ran).(cancelled := cancelled);
    PutKeeps(s, i, c');
    if !c.pc.Finished? && !c.cancelled {
      TriggeredKeeps(Put(s, i, c'));
    } else {
      assert c' == SetLife(c, k, Ran);
    }
  }

  lemma StepKeeps(s: State, a: Action)
    requires Invariant(s) && Enabled(s, a)
    ensures Invariant(Step(s, a))
  {
    match a
    case Tick(now) =>
      forall j: nat ensures CallOk(Step(s, a), j) {
        assert CallOk(s, j);
        if j < |s.calls| {
          forall k: nat ensures TimerOk(s.calls[j], k, now) {
            assert TimerOk(s.calls[j], k, s.now);
          }
        }
      }
    case Begin(timeout) =>
      forall j: nat ensures CallOk(Step(s, a), j) {
        assert CallOk(s, j);
      }
    case Try(i, answer) => TryKeeps(s, i, answer);
    case StartTimer(i) => StartTimerKeeps(s, i);
    case Register(i, fault) => RegisterKeeps(s, i, fault);
    case Yield(i) => YieldKeeps(s, i);
    case Resume(i) => ResumeKeeps(s, i);
    case DropTimer(i) => DropTimerKeeps(s, i);
    case Look(i) => LookKeeps(s, i);
    case Wake => TriggeredKeeps(s);
    case Expire(i, k) => ExpireKeeps(s, i, k);
    case RunCallback(i, k, fault) => RunCallbackKeeps(s, i, k, fault);
  }

  // ---- Runs ----

  function Initial(now: nat): State {
    State(now, [], None, multiset{})
  }

  predicate Run(s: State, steps: seq<Action>)
    decreases |steps|
  {
    steps != [] ==> Enabled(s, steps[0]) && Run(Step(s, steps[0]), steps[1..])
  }

  function After(s: State, steps: seq<Action>): State
    requires Run(s, steps)
    decreases |steps|
  {
    if steps == [] then s else After(Step(s, steps[0]), steps[1..])
  }

  lemma {:induction false} RunKeeps(s: State, steps: seq<Action>)
    requires Invariant(s) && Run(s, steps)
    ensures Invariant(After(s, steps))
    decreases |steps|
  {
    if steps != [] {
      StepKeeps(s, steps[0]);
      RunKeeps(Step(s, steps[0]), steps[1..]);
    }
  }

  lemma Reachable(now: nat, steps: seq<Action>)
    requires Run(Initial(now), steps)
    ensures Invariant(After(Initial(now), steps))
  {
    forall i: nat ensures CallOk(Initial(now), i) {
    }
    RunKeeps(Initial(now), steps);
  }

  /** In every interleaving a fiber that waits has exactly one way back, its registration or its place in
      the queue, and one that does not wait has none: it is queued at most once for each park. */
  lemma OneWayBack(now: nat, steps: seq<Action>, i: nat)
    requires Run(Initial(now), steps) && i < |After(Initial(now), steps).calls|
    ensures var s := After(Initial(now), steps);
      (if s.slot == Some(i) then 1 else 0) + s.queue[i] == if Waiting(s.calls[i].pc) then 1 else 0
  {
    Reachable(now, steps);
    assert CallOk(After(Initial(now), steps), i);
  }

  /** ETIMEDOUT is returned only when a timer this call started has run, at least the whole timeout after
      the call began. */
  lemma TimedOutHonestly(now: nat, steps: seq<Action>, i: nat)
    requires Run(Initial(now), steps) && Enabled(After(Initial(now), steps), Look(i))
    requires Step(After(Initial(now), steps), Look(i)).calls[i].pc == Finished(TimedOut)
    ensures var s := After(Initial(now), steps); var c := s.calls[i];
      && c.timeout.Some? && s.now >= c.start + c.timeout.value
      && exists k :: 0 <= k < |c.timers| && c.timers[k].life == Ran && c.timers[k].deadline <= s.now
  {
    Reachable(now, steps);
    var s := After(Initial(now), steps);
    assert CallOk(s, i);
    var c := s.calls[i];
    var k: nat :| k < |c.timers| && c.timers[k].life == Ran;
    assert TimerOk(c, k, s.now);
  }

  /** While a fiber waits with a timeout and no timer of its call has run yet, the callback that will end
      the wait is still to come. */
  lemma TimeoutStillAhead(now: nat, steps: seq<Action>, i: nat)
    requires Run(Initial(now), steps)
    requires var s := After(Initial(now), steps);
      i < |s.calls| && Waiting(s.calls[i].pc) && s.calls[i].timeout.Some? && !s.calls[i].cancelled
    ensures TimeoutAhead(After(Initial(now), steps).calls[i])
  {
    Reachable(now, steps);
    assert CallOk(After(Initial(now), steps), i);
  }

  // ---- The result ----

  /** How a call goes on, in every reachable state: it returns what the system call gave exactly when that
      completed, it fails exactly when its addEvent is refused, and when it looks it is timed out exactly
      if one of its timers has run, and tries again otherwise. No other step ends it. */
  lemma Outcome(now: nat, steps: seq<Action>, a: Action, i: nat)
    requires Run(Initial(now), steps) && Enabled(After(Initial(now), steps), a)
    requires i < |After(Initial(now), steps).calls| && !After(Initial(now), steps).calls[i].pc.Finished?
    ensures var s := After(Initial(now), steps); var s' := Step(s, a); var c := s.calls[i];
      && i < |s'.calls|
      && (s'.calls[i].pc == Finished(Returned) <==> a == Try(i, Completed))
      && (s'.calls[i].pc == Finished(Failed) <==> a == Register(i, true))
      && (s'.calls[i].pc == Finished(TimedOut) <==>
            a == Look(i) && exists k :: 0 <= k < |c.timers| && c.timers[k].life == Ran)
      && (a == Look(i) && s'.calls[i].pc != Finished(TimedOut) ==> s'.calls[i].pc == Trying)
      && (a == Try(i, Interrupted) ==> s'.calls[i].pc == Trying)
      && (a == Try(i, WouldBlock) ==> s'.calls[i].pc == if c.timeout.Some? then NeedTimer else NeedEvent)
  {
    Reachable(now, steps);
    var s := After(Initial(now), steps);
    assert CallOk(s, i);
    MarkedIffRan(s, i);
  }

  /** A call begins now, with its timeout, no timer and no mark. */
  lemma Begins(s: State, timeout: Option<nat>)
    ensures Enabled(s, Begin(timeout))
    ensures var s' := Step(s, Begin(timeout)); var i := |s.calls|;
      && |s'.calls| == i + 1 && s'.calls[..i] == s.calls
      && s'.calls[i].start == s.now && s'.calls[i].timeout == timeout && s'.calls[i].pc == Trying
      && s'.calls[i].timers == [] && !s'.calls[i].cancelled
      && s'.slot == s.slot && s'.queue == s.queue && s'.now == s.now
  {
  }

  /** A call that goes on is marked exactly if one of its timers has run. */
  lemma MarkedIffRan(s: State, i: nat)
    requires CallOk(s, i) && i < |s.calls| && !s.calls[i].pc.Finished?
    ensures s.calls[i].cancelled <==> SomeRan(s.calls[i])
  {
    var c := s.calls[i];
    if SomeRan(c) {
      var k: nat :| k < |c.timers| && c.timers[k].life == Ran;
      assert TimerOk(c, k, s.now);
    }
  }

  /** A step of call i itself. */
  predicate Own(a: Action, i: nat) {
    match a
    case Try(j, _) => j == i
    case StartTimer(j) => j == i
    case Register(j, _) => j == i
    case Yield(j) => j == i
    case Resume(j) => j == i
    case DropTimer(j) => j == i
    case Look(j) => j == i
    case _ => false
  }

  /** The last step of call i itself. */
  function LastOwn(steps: seq<Action>, i: nat): Option<Action> {
    if steps == [] then None
    else if Own(steps[|steps| - 1], i) then Some(steps[|steps| - 1])
    else LastOwn(steps[..|steps| - 1], i)
  }

  lemma {:induction false} RunInit(s: State, steps: seq<Action>)
    requires Run(s, steps) && steps != []
    ensures var init := steps[..|steps| - 1];
      Run(s, init) && Enabled(After(s, init), steps[|steps| - 1])
      && After(s, steps) == Step(After(s, init), steps[|steps| - 1])
    decreases |steps|
  {
    if |steps| > 1 {
      RunInit(Step(s, steps[0]), steps[1..]);
      assert steps[1..][..|steps| - 2] == steps[..|steps| - 1][1..];
    }
  }

  /** What the last step of its own says about a call: how it ended, or that it goes on. */
  predicate Tells(pc: Pc, last: Option<Action>) {
    && (pc == Finished(Returned) <==> last.Some? && last.value.Try? && last.value.answer == Completed)
    && (pc == Finished(Failed) <==> last.Some? && last.value.Register? && last.value.fault)
    && (pc == Finished(TimedOut) ==> last.Some? && last.value.Look?)
  }

  /** Over every run: a call has returned exactly if its last attempt completed and it did nothing since,
      has failed exactly if its addEvent was refused, and is timed out only after it looked. */
  lemma {:induction false} ResultIs(now: nat, steps: seq<Action>, i: nat)
    requires Run(Initial(now), steps)
    ensures i < |After(Initial(now), steps).calls| ==>
      Tells(After(Initial(now), steps).calls[i].pc, LastOwn(steps, i))
    ensures i >= |After(Initial(now), steps).calls| ==> LastOwn(steps, i) == None
    decreases |steps|
  {
    if steps != [] {
      var init, a := steps[..|steps| - 1], steps[|steps| - 1];
      RunInit(Initial(now), steps);
      ResultIs(now, init, i);
      var s := After(Initial(now), init);
      if i < |s.calls| {
        OwnTells(s, a, i, LastOwn(init, i));
      }
    }
  }

  lemma OwnTells(s: State, a: Action, i: nat, last: Option<Action>)
    requires Enabled(s, a) && i < |s.calls| && Tells(s.calls[i].pc, last)
    ensures i < |Step(s, a).calls|
    ensures Tells(Step(s, a).calls[i].pc, if Own(a, i) then Some(a) else last)
  {
    if !Own(a, i) {
      assert Step(s, a).calls[i].pc == s.calls[i].pc;
    }
  }

  // ---- No call is stuck, and a timeout can end every wait ----

  predicate NeedOk(s: State, i: nat) {
    At(s, i, NeedTimer) ==> s.calls[i].timeout.Some?
  }

  lemma {:induction false} NeedKept(s: State, steps: seq<Action>, i: nat)
    requires NeedOk(s, i) && Run(s, steps)
    ensures NeedOk(After(s, steps), i)
    decreases |steps|
  {
    if steps != [] {
      NeedKept(Step(s, steps[0]), steps[1..], i);
    }
  }

  /** In every reachable state a call that is not finished can take a step of its own, unless the event is
      taken by another fiber when it wants to register, or it is parked and registered. */
  lemma NeverStuck(now: nat, steps: seq<Action>, i: nat)
    requires Run(Initial(now), steps)
    ensures var s := After(Initial(now), steps);
      i < |s.calls| && !s.calls[i].pc.Finished? ==>
        || (exists a :: Own(a, i) && Enabled(s, a))
        || (s.calls[i].pc == NeedEvent && s.slot != None)
        || (s.calls[i].pc == Parked && s.slot == Some(i))
  {
    Reachable(now, steps);
    NeedKept(Initial(now), steps, i);
    var s := After(Initial(now), steps);
    assert CallOk(s, i);
    if i < |s.calls| {
      match s.calls[i].pc
      case Trying => assert Own(Try(i, Completed), i) && Enabled(s, Try(i, Completed));
      case NeedTimer => assert Own(StartTimer(i), i) && Enabled(s, StartTimer(i));
      case NeedEvent => assert s.slot == None ==> Own(Register(i, false), i) && Enabled(s, Register(i, false));
      case Registered => assert Own(Yield(i), i) && Enabled(s, Yield(i));
      case Parked => assert s.slot != Some(i) ==> Own(Resume(i), i) && Enabled(s, Resume(i));
      case Resumed => assert Own(DropTimer(i), i) && Enabled(s, DropTimer(i));
      case Checking => assert Own(Look(i), i) && Enabled(s, Look(i));
      case Finished(_) =>
    }
  }

  /** The call can end with ETIMEDOUT. */
  ghost predicate CanTimeOut(s: State, i: nat) {
    exists steps ::
      Run(s, steps) && i < |After(s, steps).calls| && After(s, steps).calls[i].pc == Finished(TimedOut)
  }

  lemma StepTo(s: State, a: Action, i: nat)
    requires Enabled(s, a) && CanTimeOut(Step(s, a), i)
    ensures CanTimeOut(s, i)
  {
    var steps :| Run(Step(s, a), steps) && i < |After(Step(s, a), steps).calls|
      && After(Step(s, a), steps).calls[i].pc == Finished(TimedOut);
    assert ([a] + steps)[1..] == steps;
    assert Run(s, [a] + steps) && After(s, [a] + steps) == After(Step(s, a), steps);
  }

  lemma LookedTimesOut(s: State, i: nat)
    requires At(s, i, Checking) && s.calls[i].cancelled
    ensures CanTimeOut(s, i)
  {
    var s' := Step(s, Look(i));
    assert Run(s', []) && After(s', []).calls[i].pc == Finished(TimedOut);
    StepTo(s, Look(i), i);
  }

  lemma ResumedTimesOut(s: State, i: nat)
    requires At(s, i, Parked) && s.calls[i].cancelled && i in s.queue
    ensures CanTimeOut(s, i)
  {
    var s1 := Step(s, Resume(i));
    LookedTimesOut(Step(s1, DropTimer(i)), i);
    StepTo(s1, DropTimer(i), i);
    StepTo(s, Resume(i), i);
  }

  lemma QueuedTimesOut(s: State, i: nat)
    requires (At(s, i, Parked) || At(s, i, Registered)) && s.calls[i].cancelled && i in s.queue
    ensures CanTimeOut(s, i)
  {
    if At(s, i, Parked) {
      ResumedTimesOut(s, i);
    } else {
      ResumedTimesOut(Step(s, Yield(i)), i);
      StepTo(s, Yield(i), i);
    }
  }

  /** A timer collected: its callback wakes the call if nothing else has. */
  lemma CollectedTimesOut(s: State, i: nat, k: nat)
    requires (At(s, i, Parked) || At(s, i, Registered)) && !s.calls[i].cancelled
    requires k < |s.calls[i].timers| && s.calls[i].timers[k].life == Collected
    requires s.slot == Some(i) || i in s.queue
    ensures CanTimeOut(s, i)
  {
    QueuedTimesOut(Step(s, RunCallback(i, k, false)), i);
    StepTo(s, RunCallback(i, k, false), i);
  }

  /** From every reachable state: a call that waits with a timeout and is not marked yet can still end with
      ETIMEDOUT, once its deadline has passed, whatever other calls do. */
  lemma TimeoutCanEnd(now: nat, steps: seq<Action>, i: nat)
    requires Run(Initial(now), steps)
    requires var s := After(Initial(now), steps);
      i < |s.calls| && Waiting(s.calls[i].pc) && s.calls[i].timeout.Some? && !s.calls[i].cancelled
    ensures CanTimeOut(After(Initial(now), steps), i)
  {
    Reachable(now, steps);
    var s := After(Initial(now), steps);
    assert CallOk(s, i);
    var k: nat := |s.calls[i].timers| - 1;
    var t := s.calls[i].timers[k];
    if t.life == Collected {
      CollectedTimesOut(s, i, k);
    } else {
      var later := if s.now < t.deadline then t.deadline else s.now;
      var s1 := Step(s, Tick(later));
      CollectedTimesOut(Step(s1, Expire(i, k)), i, k);
      StepTo(s1, Expire(i, k), i);
      StepTo(s, Tick(later), i);
    }
  }

  // ---- Callbacks that come late ----

  /** A finished call's condition is dead, so that its callbacks, run from then on, wake and deregister
      nobody; and nothing else changes its result. */
  lemma FinishedForGood(s: State, a: Action, i: nat)
    requires i < |s.calls| && s.calls[i].pc.Finished? && Enabled(s, a)
    ensures var s' := Step(s, a);
      && i < |s'.calls| && s'.calls[i].pc == s.calls[i].pc && s'.calls[i].cancelled == s.calls[i].cancelled
      && (a.RunCallback? && a.i == i ==>
            && s'.slot == s.slot && s'.queue == s.queue && s'.now == s.now && |s'.calls| == |s.calls|
            && forall j :: 0 <= j < |s.calls| && j != i ==> s'.calls[j] == s.calls[j])
  {
  }

  lemma {:induction false} ResultStands(s: State, steps: seq<Action>, i: nat)
    requires i < |s.calls| && s.calls[i].pc.Finished? && Run(s, steps)
    ensures i < |After(s, steps).calls| && After(s, steps).calls[i].pc == s.calls[i].pc
    decreases |steps|
  {
    if steps != [] {
      FinishedForGood(s, steps[0], i);
      ResultStands(Step(s, steps[0]), steps[1..], i);
    }
  }

  /** A registered fiber whose call has already been marked as timed out: no timer will wake it. */
  predicate Deaf(s: State, i: nat) {
    i < |s.calls| && s.slot == Some(i) && s.calls[i].cancelled
  }

  /** A callback that runs while the fiber is registered wakes it exactly when the call is not marked yet
      and epoll_ctl does not fail. */
  lemma TimeoutWakes(s: State, i: nat, k: nat, fault: bool)
    requires Invariant(s) && Enabled(s, RunCallback(i, k, fault)) && s.slot == Some(i)
    ensures var s' := Step(s, RunCallback(i, k, fault));
      (s'.slot == None && s'.queue[i] == 1) <==> !Deaf(s, i) && !fault
  {
    assert CallOk(s, i);
  }

  /** A call becomes deaf by two steps only: registering although a callback has marked it in the meantime,
      or its callback marking it and failing to cancel the event. */
  lemma BecomesDeaf(s: State, a: Action, i: nat)
    requires Invariant(s) && Enabled(s, a) && !Deaf(s, i)
    ensures Deaf(Step(s, a), i) <==>
      || (a == Register(i, false) && s.calls[i].cancelled)
      || (a.RunCallback? && a.i == i && a.fault && s.slot == Some(i))
  {
    assert CallOk(s, i);
  }

  /** ... and stays so until readiness or someone else wakes it; its own timers never do. */
  lemma StaysDeaf(s: State, a: Action, i: nat)
    requires Invariant(s) && Enabled(s, a) && Deaf(s, i)
    ensures Deaf(Step(s, a), i) || a.Wake? || (a.RunCallback? && a.i != i)
  {
    assert CallOk(s, i);
  }

  lemma {:induction false} RunSnoc(s: State, steps: seq<Action>, a: Action)
    requires Run(s, steps) && Enabled(After(s, steps), a)
    ensures Run(s, steps + [a]) && After(s, steps + [a]) == Step(After(s, steps), a)
    decreases |steps|
  {
    if steps == [] {
      assert [] + [a] == [a] && [a][1..] == [];
    } else {
      RunSnoc(Step(s, steps[0]), steps[1..], a);
      assert (steps + [a])[1..] == steps[1..] + [a];
    }
  }

  lemma ATimerStarted() returns (steps: seq<Action>)
    ensures Run(Initial(0), steps)
    ensures After(Initial(0), steps)
      == State(0, [Call(0, Some(0), NeedEvent, [Timer(0, Pending)], false)], None, multiset{})
  {
    var s0 := Initial(0);
    var c := Call(0, Some(0), Trying, [], false);
    RunSnoc(s0, [], Begin(Some(0)));
    steps := [] + [Begin(Some(0))];
    assert After(s0, steps) == State(0, [c], None, multiset{});
    RunSnoc(s0, steps, Try(0, WouldBlock));
    steps := steps + [Try(0, WouldBlock)];
    assert After(s0, steps) == State(0, [c.(pc := NeedTimer)], None, multiset{});
    RunSnoc(s0, steps, StartTimer(0));
    assert [] + [Timer(0, Pending)] == [Timer(0, Pending)];
    steps := steps + [StartTimer(0)];
  }

  lemma ATimerRun() returns (steps: seq<Action>)
    ensures Run(Initial(0), steps)
    ensures After(Initial(0), steps)
      == State(0, [Call(0, Some(0), NeedEvent, [Timer(0, Ran)], true)], None, multiset{})
  {
    var s0 := Initial(0);
    var c := Call(0, Some(0), NeedEvent, [Timer(0, Pending)], false);
    steps := ATimerStarted();
    RunSnoc(s0, steps, Expire(0, 0));
    assert c.timers[0 := Timer(0, Collected)] == [Timer(0, Collected)];
    steps := steps + [Expire(0, 0)];
    assert After(s0, steps) == State(0, [c.(timers := [Timer(0, Collected)])], None, multiset{});
    RunSnoc(s0, steps, RunCallback(0, 0, false));
    assert [Timer(0, Collected)][0 := Timer(0, Ran)] == [Timer(0, Ran)];
    steps := steps + [RunCallback(0, 0, false)];
  }

  /** That can happen at the first park: the timer expires and its callback runs before addEvent. The
      fiber is then parked with its timeout spent. */
  lemma ADeafCall() returns (steps: seq<Action>)
    ensures Run(Initial(0), steps)
    ensures var s := After(Initial(0), steps);
      Deaf(s, 0) && s.calls[0].pc == Parked && s.calls[0].timers == [Timer(0, Ran)]
  {
    var s0 := Initial(0);
    var c := Call(0, Some(0), NeedEvent, [Timer(0, Ran)], true);
    steps := ATimerRun();
    RunSnoc(s0, steps, Register(0, false));
    steps := steps + [Register(0, false)];
    assert After(s0, steps) == State(0, [c.(pc := Registered)], Some(0), multiset{});
    RunSnoc(s0, steps, Yield(0));
    steps := steps + [Yield(0)];
    assert After(s0, steps) == State(0, [c.(pc := Parked)], Some(0), multiset{});
  }
}
