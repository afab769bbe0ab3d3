/** The N-worker fiber scheduler as a transition system: every worker has a program counter in
    Scheduler::run, and a step is one worker's move (or an outside caller's). Locked regions, and
    setting a fiber's state together with switching away from it, are single steps; taking the
    active count down and putting a READY fiber back are two.
 */
module Scheduler {
  import opened Options

  /** Blank is INIT once more, after reset(nullptr): a fiber without a callback. */
  datatype FiberState = Init | Blank | Hold | Exec | Term | Ready | Except

  datatype Work = FiberWork(fiber: nat) | Callback(cb: nat)

  /** A queue entry; pin is the thread it was scheduled for. */
  datatype Entry = Entry(work: Work, pin: Option<nat>)

  datatype Pc =
    | NotStarted                                          // the caller's thread, before stop()
    | Scanning                                            // at the loop head
    | Taken(work: Work)                                   // out of the queue, active count up
    | Discarding                                          // the fiber taken was dead
    | Running(fiber: nat, own: bool, body: bool)          // in the fiber; own: it is cb_fiber; body: it has a callback
    | Back(fiber: nat, own: bool, out: FiberState)        // out of it again; out is how it left
    | Booked(fiber: nat, own: bool, out: FiberState)      // active count down, state not looked at
    | Nothing                                             // the scan found nothing
    | Idling                                              // in the idle fiber, about to ask whether to stop
    | Polling                                             // in the idle fiber, which is not to stop
    | Left                                                // out of run()

  datatype Worker = Worker(pc: Pc, cbFiber: Option<nat>, idle: FiberState)

  datatype State = State(
    queue: seq<Entry>,
    fibers: map<nat, FiberState>,
    nextFiber: nat,
    active: int,
    stopping: bool,
    autostop: bool,
    workers: seq<Worker>,
    aborted: bool)
  {
    function Of(f: nat): FiberState {
      if f in fibers then fibers[f] else Init
    }

    /** stopping() */
    predicate Stops() {
      stopping && autostop && queue == [] && active == 0
    }

    function Set(f: nat, x: FiberState): State {
      this.(fibers := fibers[f := x])
    }

    function With(w: nat, x: Worker): State
      requires w < |workers|
    {
      this.(workers := workers[w := x])
    }

    function Goto(w: nat, pc: Pc): State
      requires w < |workers|
    {
      With(w, workers[w].(pc := pc))
    }
  }

  datatype Action =
    | Outside(entry: Entry)
    | SetAutostop
    | SetStopping
    | CallerDecides(w: nat, busy: bool)      // busy: IOManager still has timers or events
    | Scan(w: nat)
    | Begin(w: nat)
    | Push(w: nat, entry: Entry)
    | Yield(w: nat, out: FiberState)
    | Book(w: nat)
    | Settle(w: nat)
    | EnterIdle(w: nat)
    | IdleCheck(w: nat, busy: bool)
    | IdleYield(w: nat)

  predicate Dead(x: FiberState) { x == Term || x == Except }

  /** What reset() asserts of the state. */
  predicate Resettable(x: FiberState) { Dead(x) || x == Init || x == Blank }

  // ---- The scan ----

  predicate Foreign(e: Entry, me: nat) {
    e.pin.Some? && e.pin.value != me
  }

  /** Entries a worker passes over: pinned to another thread, or of a fiber being run. */
  predicate Skipped(s: State, e: Entry, me: nat) {
    Foreign(e, me) || (e.work.FiberWork? && s.Of(e.work.fiber) == Exec)
  }

  /** The entry a worker takes. */
  function FirstRunnable(s: State, me: nat, i: nat): (r: Option<nat>)
    requires i <= |s.queue|
    ensures r.Some? ==> i <= r.value < |s.queue| && !Skipped(s, s.queue[r.value], me)
    ensures r.Some? ==> forall j :: i <= j < r.value ==> Skipped(s, s.queue[j], me)
    ensures r == None ==> forall j :: i <= j < |s.queue| ==> Skipped(s, s.queue[j], me)
    decreases |s.queue| - i
  {
    if i == |s.queue| then None
    else if Skipped(s, s.queue[i], me) then FirstRunnable(s, me, i + 1)
    else Some(i)
  }

  /** The locked scan of run(): what it takes, what it leaves, and whether it wakes others, which
      it does when it passed an entry pinned elsewhere or left entries behind the one taken. */
  method ScanQueue(s: State, me: nat) returns (taken: Option<Entry>, left: seq<Entry>, tickle: bool)
    ensures match FirstRunnable(s, me, 0)
            case Some(i) => taken == Some(s.queue[i]) && left == s.queue[..i] + s.queue[i + 1..]
            case None => taken == None && left == s.queue
    ensures taken.Some? ==>
      && (taken.value.pin == None || taken.value.pin == Some(me))
      && (taken.value.work.FiberWork? ==> s.Of(taken.value.work.fiber) != Exec)
    ensures var end := if taken.Some? then FirstRunnable(s, me, 0).value else |s.queue|;
      && (forall j :: 0 <= j < end ==>
            || (s.queue[j].pin != None && s.queue[j].pin != Some(me))
            || (s.queue[j].work.FiberWork? && s.Of(s.queue[j].work.fiber) == Exec))
      && (tickle <==> end + 1 < |s.queue|
                      || exists j :: 0 <= j < end && s.queue[j].pin != None && s.queue[j].pin != Some(me))
  {
    taken, left, tickle := None, s.queue, false;
    var it: nat := 0;
    while it < |left|
      invariant it <= |left| && left == s.queue && taken == None
      invariant FirstRunnable(s, me, 0) == FirstRunnable(s, me, it)
      invariant tickle <==> exists j :: 0 <= j < it && Foreign(s.queue[j], me)
    {
      var e := left[it];
      if e.pin != None && e.pin != Some(me) {
        it := it + 1;
        tickle := true;
        continue;
      }
      if e.work.FiberWork? && s.Of(e.work.fiber) == Exec {
        it := it + 1;
        continue;
      }
      taken := Some(e);
      left := left[..it] + left[it + 1..];
      break;
    }
    tickle := tickle || it != |left|;
  }

  // ---- Steps ----

  /** What is scheduled exists. */
  predicate Exists(s: State, e: Entry) {
    e.work.FiberWork? ==> e.work.fiber < s.nextFiber
  }

  /** Where each action can happen. After an assertion has fired nothing can. A fiber without a callback
      throws at once. Fibers schedule, and so does the idle fiber of an IOManager, before and after stop(). */
  predicate Enabled(s: State, a: Action) {
    && !s.aborted
    && match a
       case Outside(e) => !s.autostop && Exists(s, e)
       case SetAutostop => true
       case SetStopping => s.autostop
       case CallerDecides(w, _) => w < |s.workers| && s.workers[w].pc == NotStarted && s.stopping && s.autostop
       case Scan(w) => w < |s.workers| && s.workers[w].pc == Scanning
       case Begin(w) => w < |s.workers| && s.workers[w].pc.Taken?
       case Push(w, e) =>
         && w < |s.workers| && Exists(s, e)
         && (s.workers[w].pc == Polling || (s.workers[w].pc.Running? && s.workers[w].pc.body))
       case Yield(w, out) =>
         w < |s.workers| && s.workers[w].pc.Running? && out != Init && out != Blank && out != Exec
         && (s.workers[w].pc.body || out == Except)
       case Book(w) => w < |s.workers| && (s.workers[w].pc.Back? || s.workers[w].pc.Discarding?)
       case Settle(w) => w < |s.workers| && s.workers[w].pc.Booked?
       case EnterIdle(w) => w < |s.workers| && s.workers[w].pc == Nothing
       case IdleCheck(w, _) => w < |s.workers| && s.workers[w].pc == Idling
       case IdleYield(w) => w < |s.workers| && s.workers[w].pc == Polling
  }

  function Enqueue(s: State, e: Entry): State {
    s.(queue := s.queue + [e])
  }

  function DoScan(s: State, w: nat): State
    requires w < |s.workers|
  {
    match FirstRunnable(s, w, 0)
    case None => s.Goto(w, Nothing)
    case Some(i) =>
      s.Goto(w, Taken(s.queue[i].work)).(queue := s.queue[..i] + s.queue[i + 1..], active := s.active + 1)
  }

  /** swapIn, after cb_fiber has been reset or made where the work is a callback. */
  function DoBegin(s: State, w: nat): State
    requires w < |s.workers| && s.workers[w].pc.Taken?
  {
    match s.workers[w].pc.work
    case FiberWork(f) =>
      if Dead(s.Of(f)) then s.Goto(w, Discarding)
      else if s.Of(f) == Exec then s.(aborted := true)
      else s.Set(f, Exec).Goto(w, Running(f, false, s.Of(f) != Blank))
    case Callback(_) =>
      match s.workers[w].cbFiber
      case Some(g) =>
        if !Resettable(s.Of(g)) then s.(aborted := true)
        else s.Set(g, Exec).Goto(w, Running(g, true, true))
      case None =>
        var g := s.nextFiber;
        s.Set(g, Exec).With(w, s.workers[w].(pc := Running(g, true, true), cbFiber := Some(g))).(nextFiber := g + 1)
  }

  /** YieldToReady and YieldToHold, which assert that the fiber is EXEC, or the end of MainFunc. */
  function DoYield(s: State, w: nat, out: FiberState): State
    requires w < |s.workers| && s.workers[w].pc.Running?
  {
    var Running(f, own, _) := s.workers[w].pc;
    if (out == Ready || out == Hold) && s.Of(f) != Exec then s.(aborted := true)
    else s.Set(f, out).Goto(w, Back(f, own, out))
  }

  /** What run() does about the fiber it is back from. */
  function DoSettle(s: State, w: nat): State
    requires w < |s.workers| && s.workers[w].pc.Booked?
  {
    var Booked(f, own, _) := s.workers[w].pc;
    var worker := s.workers[w].(pc := Scanning);
    if s.Of(f) == Ready then
      Enqueue(s.With(w, if own then worker.(cbFiber := None) else worker), Entry(FiberWork(f), None))
    else if Dead(s.Of(f)) then
      (if own then s.Set(f, Blank) else s).With(w, worker)
    else
      s.Set(f, Hold).With(w, if own then worker.(cbFiber := None) else worker)
  }

  function Step(s: State, a: Action): State
    requires Enabled(s, a)
  {
    match a
    case Outside(e) => Enqueue(s, e)
    case SetAutostop => s.(autostop := true)
    case SetStopping => s.(stopping := true)
    case CallerDecides(w, busy) => s.Goto(w, if s.Stops() && !busy then Left else Scanning)
    case Scan(w) => DoScan(s, w)
    case Begin(w) => DoBegin(s, w)
    case Push(_, e) => Enqueue(s, e)
    case Yield(w, out) => DoYield(s, w, out)
    case Book(w) =>
      var pc := s.workers[w].pc;
      s.Goto(w, if pc.Back? then Booked(pc.fiber, pc.own, pc.out) else Scanning).(active := s.active - 1)
    case Settle(w) => DoSettle(s, w)
    case EnterIdle(w) =>
      if s.workers[w].idle == Term then s.With(w, s.workers[w].(pc := Left, cbFiber := None))
      else if s.workers[w].idle == Exec then s.(aborted := true)
      else s.With(w, s.workers[w].(pc := Idling, idle := Exec))
    case IdleCheck(w, busy) =>
      if s.Stops() && !busy then s.With(w, s.workers[w].(pc := Scanning, idle := Term)) else s.Goto(w, Polling)
    case IdleYield(w) => s.With(w, s.workers[w].(pc := Scanning, idle := Hold))
  }

  /** After start(): workers at their loop heads, the caller's not yet started; anything queued,
      no fiber running. */
  ghost predicate Initial(s: State) {
    && |s.workers| > 0 && s.active == 0 && !s.stopping && !s.autostop && !s.aborted
    && (forall w <- s.workers :: (w.pc == Scanning || w.pc == NotStarted) && w.cbFiber == None && w.idle == Init)
    && (forall f :: s.Of(f) != Exec)
    && (forall e <- s.queue :: e.work.FiberWork? ==> e.work.fiber < s.nextFiber)
  }

  /** A run: each action enabled where it happens. */
  ghost predicate Run(s: State, actions: seq<Action>, s': State)
    decreases |actions|
  {
    if actions == [] then s == s'
    else Enabled(s, actions[0]) && Run(Step(s, actions[0]), actions[1..], s')
  }
}
