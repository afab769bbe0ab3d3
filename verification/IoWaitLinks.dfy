/** The waiting protocol of IoWait.dfy over the event table and the timer set themselves: its slot is the
    event's context, its timers are timers of the set, and each of its steps is what addEvent,
    cancelEvent, addTimer, cancel and the sweep do to those two.
 */
module IoWaitLinks {
  import opened Options
  import opened IoWait
  import E = EventSpec
  import EventProofs
  import EventMeaning
  import T = TimerSpec
  import TimerProofs
  import TimerSets

  /** The event all the calls wait for, the scheduler they run on, and the first of the numbers their
      fibers have; everybody else's fibers have smaller ones. */
  datatype Place = Place(fd: nat, event: E.Event, scheduler: nat, base: nat)

  /** Where in the timer set a call's timer is: call and number of the timer to address. */
  type Addresses = map<(nat, nat), nat>

  /** resumed: how often each call has been resumed. */
  datatype Whole =
    Whole(wait: State, events: E.State, timers: T.State, address: Addresses, resumed: multiset<nat>)

  // ---- The slot is the event's context ----

  /** The fiber that makes call i. */
  function FiberOf(p: Place, i: nat): E.Waiter {
    E.Fiber(p.base + i)
  }

  ghost predicate SlotLinked(w: State, p: Place, ev: E.State) {
    && E.Agrees(ev)
    && (w.slot.Some? <==> p.event in EventMeaning.EventsOf(ev, p.fd))
    && (w.slot.Some? ==> E.GetContext(ev.fds[p.fd], p.event) == E.Occupant(p.scheduler, FiberOf(p, w.slot.value)))
    && forall fd: nat, e: E.Event :: StraysNot(p, ev, fd, e)
  }

  /** A fiber of one of the calls. */
  predicate Ours(p: Place, h: E.Handed) {
    h.scheduler == p.scheduler && h.who.Fiber? && h.who.id >= p.base
  }

  /** No fiber of the calls waits for any other event. */
  predicate StraysNot(p: Place, ev: E.State, fd: nat, e: E.Event) {
    e in EventMeaning.EventsOf(ev, fd) && !(fd == p.fd && e == p.event) ==>
      var c := E.GetContext(ev.fds[fd], e);
      E.Occupied(c) && !Ours(p, E.Handed(c.scheduler.value, E.Held(c)))
  }

  /** The fiber of call i, as it is handed over. */
  function AsHanded(p: Place, i: nat): E.Handed {
    E.Handed(p.scheduler, FiberOf(p, i))
  }

  /** The fiber registered, as it is handed over. */
  function Woken(w: State, p: Place): E.Handed
    requires w.slot.Some?
  {
    AsHanded(p, w.slot.value)
  }

  /** A call of anybody else's: it neither adds nor deletes this event, nor adds a fiber of the calls. */
  predicate Elsewhere(p: Place, t: E.Step) {
    && ((t.call.Adding? || t.call.Deleting?) ==> !(t.call.fd == p.fd && t.call.e == p.event))
    && (t.call.Adding? ==> !Ours(p, E.Handed(t.call.scheduler, t.call.w)))
  }

  /** It takes the slot's event away. */
  ghost predicate Takes(p: Place, ev: E.State, t: E.Step)
    requires EventProofs.Possible(ev, t)
  {
    E.Apply(ev, t).1 == E.Done && t.call.fd == p.fd && p.event in EventMeaning.Gone(ev, t.call)
  }

  /** Every call leaves the waiters of the other events where they are. */
  lemma ContextStays(ev: E.State, t: E.Step, fd: nat, e: E.Event)
    requires EventProofs.Possible(ev, t) && e in EventMeaning.EventsOf(ev, fd)
    requires e in EventMeaning.EventsOf(E.Apply(ev, t).0, fd)
    ensures E.GetContext(E.Apply(ev, t).0.fds[fd], e) == E.GetContext(ev.fds[fd], e)
  {
    EventMeaning.CallMeans(ev, t);
    assert E.At(ev, t.call.fd);
    if fd == t.call.fd {
      assert E.ContextOk(ev.fds[fd], E.Read) && E.ContextOk(ev.fds[fd], E.Write);
      if t.call.Adding? {
        E.GrownHolds(ev.fds, fd);
        assert E.Grown(ev.fds, fd)[fd] == E.Grown(ev.fds, fd)[..|ev.fds|][fd];
      }
    }
  }

  /** Nor does it bring a fiber of the calls to another event. */
  lemma StraysKept(p: Place, ev: E.State, t: E.Step, fd: nat, e: E.Event)
    requires EventProofs.Possible(ev, t) && StraysNot(p, ev, fd, e)
    requires Elsewhere(p, t) || (t.call.fd == p.fd && t.call.Adding? && t.call.e == p.event) || t.call.Cancelling?
    ensures StraysNot(p, E.Apply(ev, t).0, fd, e)
  {
    var ev' := E.Apply(ev, t).0;
    EventMeaning.CallMeans(ev, t);
    if e in EventMeaning.EventsOf(ev', fd) {
      if e in EventMeaning.EventsOf(ev, fd) {
        ContextStays(ev, t, fd, e);
      } else {
        assert t.call.Adding? && t.call.fd == fd && t.call.e == e;
        EventProofs.AddAgrees(ev, fd, e, t.call.scheduler, t.call.w, t.fault);
      }
    }
  }

  /** The waiter of an event is the fiber of call i exactly if it is the slot's event and call i is
      registered there. */
  lemma WaiterIs(w: State, p: Place, ev: E.State, fd: nat, e: E.Event, i: nat)
    requires SlotLinked(w, p, ev) && fd < |ev.fds| && E.RecOk(ev.fds[fd]) && e in ev.fds[fd].events
    ensures var c := E.GetContext(ev.fds[fd], e);
      && E.Occupied(c)
      && (E.Handed(c.scheduler.value, E.Held(c)) == AsHanded(p, i)
          <==> fd == p.fd && e == p.event && w.slot == Some(i))
  {
    assert E.ContextOk(ev.fds[fd], e) && StraysNot(p, ev, fd, e);
  }

  /** So the fiber of call i is among the waiters of these events once or not at all. */
  lemma WaitersCount(w: State, p: Place, ev: E.State, fd: nat, events: set<E.Event>, i: nat)
    requires SlotLinked(w, p, ev) && fd < |ev.fds| && E.RecOk(ev.fds[fd]) && events <= ev.fds[fd].events
    ensures multiset(EventMeaning.Waiters(ev.fds[fd], events))[AsHanded(p, i)]
            == if fd == p.fd && p.event in events && w.slot == Some(i) then 1 else 0
  {
    if E.Read in events {
      WaiterIs(w, p, ev, fd, E.Read, i);
    }
    if E.Write in events {
      WaiterIs(w, p, ev, fd, E.Write, i);
    }
    assert p.event == E.Read || p.event == E.Write;
  }

  /** A call that is done hands these events' waiters over. */
  lemma DoneCount(w: State, p: Place, ev: E.State, t: E.Step, events: set<E.Event>, i: nat)
    requires SlotLinked(w, p, ev) && EventProofs.Possible(ev, t) && E.Apply(ev, t).1 == E.Done
    requires t.call.fd < |ev.fds| && E.RecOk(ev.fds[t.call.fd]) && events <= ev.fds[t.call.fd].events
    requires E.Apply(ev, t).0.handed == ev.handed + EventMeaning.Waiters(ev.fds[t.call.fd], events)
    requires events == EventMeaning.Gone(ev, t.call)
    ensures multiset(E.Apply(ev, t).0.handed)[AsHanded(p, i)]
            == multiset(ev.handed)[AsHanded(p, i)] + if Takes(p, ev, t) && w.slot == Some(i) then 1 else 0
  {
    WaitersCount(w, p, ev, t.call.fd, events, i);
  }

  /** What a call hands over of the fibers of the calls: the one registered, if it takes the event away. */
  lemma HandedCount(w: State, p: Place, ev: E.State, t: E.Step, i: nat)
    requires SlotLinked(w, p, ev) && EventProofs.Possible(ev, t) && !t.call.Deleting?
    ensures multiset(E.Apply(ev, t).0.handed)[AsHanded(p, i)]
            == multiset(ev.handed)[AsHanded(p, i)] + if Takes(p, ev, t) && w.slot == Some(i) then 1 else 0
  {
    if t.call.Adding? {
      EventMeaning.AddMeans(ev, t);
    } else if E.Apply(ev, t).1 != E.Done {
      EventMeaning.RefusedIsNothing(ev, t);
    } else {
      DoneHandsOver(ev, t);
      DoneCount(w, p, ev, t, EventMeaning.Gone(ev, t.call), i);
    }
  }

  lemma DoneHandsOver(ev: E.State, t: E.Step)
    requires EventProofs.Possible(ev, t) && E.Apply(ev, t).1 == E.Done && !t.call.Adding? && !t.call.Deleting?
    ensures t.call.fd < |ev.fds| && E.RecOk(ev.fds[t.call.fd])
    ensures EventMeaning.Gone(ev, t.call) <= ev.fds[t.call.fd].events
    ensures E.Apply(ev, t).0.handed
            == ev.handed + EventMeaning.Waiters(ev.fds[t.call.fd], EventMeaning.Gone(ev, t.call))
  {
    match t.call
    case Cancelling(_, _) => EventMeaning.CancelMeans(ev, t);
    case CancellingAll(_) => EventMeaning.CancelAllMeans(ev, t);
    case Ready(_, _) => EventMeaning.ReadyMeans(ev, t);
  }

  /** Registering is an addEvent: it would trip an assertion exactly when the slot is taken. */
  lemma RegisterIsAddEvent(w: State, p: Place, ev: E.State, i: nat, fault: bool)
    requires SlotLinked(w, p, ev) && At(w, i, NeedEvent)
    ensures var (ev', r) := E.AddEvent(ev, p.fd, p.event, p.scheduler, FiberOf(p, i), fault);
      && (r == E.Aborted <==> !Enabled(w, Register(i, fault)))
      && (r != E.Aborted ==>
            && (r == E.Refused <==> fault) && ev'.handed == ev.handed
            && SlotLinked(Step(w, Register(i, fault)), p, ev'))
  {
    EventProofs.AddAgrees(ev, p.fd, p.event, p.scheduler, FiberOf(p, i), fault);
    var t := E.Step(E.Adding(p.fd, p.event, p.scheduler, FiberOf(p, i)), fault);
    if w.slot == None {
      var ev' := E.Apply(ev, t).0;
      EventMeaning.CallMeans(ev, t);
      forall fd: nat, e: E.Event ensures StraysNot(p, ev', fd, e) {
        assert StraysNot(p, ev, fd, e);
        StraysKept(p, ev, t, fd, e);
      }
    }
  }

  /** A trigger of the slot's event, the kernel told. */
  lemma CancelIsTriggered(w: State, p: Place, ev: E.State, fault: bool)
    requires SlotLinked(w, p, ev)
    ensures E.At(ev, p.fd)
    ensures var (ev', r) := E.CancelEvent(ev, p.fd, p.event, fault);
      && (r == E.Done <==> w.slot.Some? && !fault)
      && SlotLinked(if fault then w else Triggered(w), p, ev')
      && ev'.handed == ev.handed + if r == E.Done then [Woken(w, p)] else []
  {
    EventProofs.CancelAgrees(ev, p.fd, p.event, fault);
    if w.slot.Some? && !fault {
      var ev' := E.CancelEvent(ev, p.fd, p.event, fault).0;
      assert E.At(ev, p.fd);
      EventProofs.TriggerEmpties(ev.(kernel := ev'.kernel), p.fd, p.event);
      forall fd: nat, e: E.Event ensures StraysNot(p, ev', fd, e) {
        assert StraysNot(p, ev, fd, e);
        StraysKept(p, ev, E.Step(E.Cancelling(p.fd, p.event), fault), fd, e);
      }
    }
  }

  /** The timer callback does anything at all. */
  predicate Acts(w: State, i: nat) {
    i < |w.calls| && !w.calls[i].pc.Finished? && !w.calls[i].cancelled
  }

  /** A callback that acts is a cancelEvent: whom the table hands over is whom the queue gains. */
  lemma CallbackIsCancelEvent(w: State, p: Place, ev: E.State, i: nat, k: nat, fault: bool)
    requires SlotLinked(w, p, ev) && Enabled(w, RunCallback(i, k, fault)) && Acts(w, i)
    ensures E.At(ev, p.fd)
    ensures var (ev', r) := E.CancelEvent(ev, p.fd, p.event, fault); var w' := Step(w, RunCallback(i, k, fault));
      && SlotLinked(w', p, ev')
      && (r == E.Done <==> w.slot.Some? && !fault)
      && (r == E.Done ==> ev'.handed == ev.handed + [Woken(w, p)] && w'.queue == w.queue + multiset{w.slot.value})
      && (r != E.Done ==> ev' == ev && w'.queue == w.queue)
  {
    EventProofs.CancelAgrees(ev, p.fd, p.event, fault);
    CancelIsTriggered(w, p, ev, fault);
  }

  /** Whoever takes the event away wakes its waiter: readiness, cancelEvent and cancelAll are Wake. */
  lemma OthersAreWake(w: State, p: Place, ev: E.State, t: E.Step)
    requires SlotLinked(w, p, ev) && EventProofs.Possible(ev, t) && Elsewhere(p, t)
    ensures var ev' := E.Apply(ev, t).0;
      if Takes(p, ev, t) then
        && w.slot.Some? && SlotLinked(Step(w, Wake), p, ev')
        && ev.handed <= ev'.handed && Woken(w, p) in ev'.handed[|ev.handed|..]
      else SlotLinked(w, p, ev')
  {
    EventProofs.StepAgrees(ev, t);
    EventMeaning.CallMeans(ev, t);
    var ev' := E.Apply(ev, t).0;
    forall fd: nat, e: E.Event ensures StraysNot(p, ev', fd, e) {
      assert StraysNot(p, ev, fd, e);
      StraysKept(p, ev, t, fd, e);
    }
    if Takes(p, ev, t) {
      match t.call
      case Cancelling(_, _) => EventMeaning.CancelMeans(ev, t);
      case CancellingAll(_) => EventMeaning.CancelAllMeans(ev, t);
      case Ready(_, _) => EventMeaning.ReadyMeans(ev, t);
      case _ => assert false;
    } else if w.slot.Some? {
      ContextStays(ev, t, p.fd, p.event);
    }
  }

  // ---- The queue is what was handed over and not resumed ----

  /** Call i is in the queue as often as its fiber was handed over and has not been resumed since. */
  predicate QueueLinkedAt(w: State, p: Place, ev: E.State, resumed: multiset<nat>, i: nat) {
    multiset(ev.handed)[AsHanded(p, i)] == w.queue[i] + resumed[i]
  }

  ghost predicate QueueLinked(w: State, p: Place, ev: E.State, resumed: multiset<nat>) {
    forall i: nat :: QueueLinkedAt(w, p, ev, resumed, i)
  }

  lemma OthersKeepQueue(w: State, p: Place, ev: E.State, t: E.Step, resumed: multiset<nat>)
    requires SlotLinked(w, p, ev) && QueueLinked(w, p, ev, resumed)
    requires EventProofs.Possible(ev, t) && Elsewhere(p, t)
    ensures QueueLinked(if Takes(p, ev, t) then Step(w, Wake) else w, p, E.Apply(ev, t).0, resumed)
  {
    var w' := if Takes(p, ev, t) then Step(w, Wake) else w;
    OthersAreWake(w, p, ev, t);
    forall i: nat ensures QueueLinkedAt(w', p, E.Apply(ev, t).0, resumed, i) {
      assert QueueLinkedAt(w, p, ev, resumed, i);
      if t.call.Deleting? {
        EventMeaning.DelMeans(ev, t);
      } else {
        HandedCount(w, p, ev, t, i);
      }
    }
  }

  // ---- The timers are timers of the set ----

  /** The timer stands in the set under its deadline exactly as long as it is pending. */
  ghost predicate TimerLinked(w: State, ts: T.State, m: Addresses, q: (nat, nat)) {
    q in m && q.0 < |w.calls| && q.1 < |w.calls[q.0].timers| && m[q] in ts.recs &&
    var r := ts.recs[m[q]]; var t := w.calls[q.0].timers[q.1];
    !r.recurring && r.next == t.deadline && (r.cb.Some? <==> t.life == Pending)
  }

  ghost predicate TimersLinked(w: State, ts: T.State, m: Addresses) {
    && T.Consistent(ts) && ts.previous <= w.now
    && (forall i: nat, k: nat :: i < |w.calls| && k < |w.calls[i].timers| ==> (i, k) in m)
    && (forall q <- m :: TimerLinked(w, ts, m, q))
    && (forall q <- m, r <- m :: m[q] == m[r] ==> q == r)
  }

  /** No timer became or ceased to be pending, and none moved. */
  ghost predicate SameTimers(w: State, w': State) {
    && w.now <= w'.now && |w.calls| <= |w'.calls|
    && (forall i :: |w.calls| <= i < |w'.calls| ==> w'.calls[i].timers == [])
    && (forall i :: 0 <= i < |w.calls| ==> |w'.calls[i].timers| == |w.calls[i].timers|)
    && (forall i, k :: 0 <= i < |w.calls| && 0 <= k < |w.calls[i].timers| ==>
          && w'.calls[i].timers[k].deadline == w.calls[i].timers[k].deadline
          && (w'.calls[i].timers[k].life == Pending <==> w.calls[i].timers[k].life == Pending))
  }

  lemma SameTimersLinked(w: State, ts: T.State, m: Addresses, w': State)
    requires TimersLinked(w, ts, m) && SameTimers(w, w')
    ensures TimersLinked(w', ts, m)
  {
    forall q | q in m ensures TimerLinked(w', ts, m, q) {
      assert TimerLinked(w, ts, m, q);
    }
  }

  /** Starting a timer is an addTimer at an address of its own. */
  lemma StartTimerIsAdd(w: State, ts: T.State, m: Addresses, i: nat, a: nat, cb: nat)
    requires TimersLinked(w, ts, m) && Enabled(w, StartTimer(i)) && a !in ts.recs
    ensures
      TimersLinked(
        Step(w, StartTimer(i)), T.Add(ts, a, w.calls[i].timeout.value, cb, false, w.now),
        m[(i, |w.calls[i].timers|) := a])
  {
    TimerSets.AddKeeps(ts, a, w.calls[i].timeout.value, cb, false, w.now);
    var w' := Step(w, StartTimer(i));
    var ts' := T.Add(ts, a, w.calls[i].timeout.value, cb, false, w.now);
    var m' := m[(i, |w.calls[i].timers|) := a];
    forall q | q in m' ensures TimerLinked(w', ts', m', q) {
      assert q in m ==> TimerLinked(w, ts, m, q);
    }
    forall q, r | q in m' && r in m' && m'[q] == m'[r] ensures q == r {
      assert q in m ==> TimerLinked(w, ts, m, q);
      assert r in m ==> TimerLinked(w, ts, m, r);
    }
  }

  /** This park's timer, if there is one, cancelled in the set. */
  ghost function Dropped(w: State, ts: T.State, m: Addresses, i: nat): T.State
    requires TimersLinked(w, ts, m) && i < |w.calls|
  {
    var c := w.calls[i];
    if c.timeout.Some? && c.timers != [] then
      var q: (nat, nat) := (i, |c.timers| - 1);
      assert TimerLinked(w, ts, m, q);
      TimerSets.CancelKeeps(ts, m[q]);
      T.Cancel(ts, m[q]).0
    else ts
  }

  /** Dropping the timer is cancel(), which fails exactly when the timer was collected or dropped before. */
  lemma DropIsCancel(w: State, ts: T.State, m: Addresses, i: nat, pc: Pc)
    requires TimersLinked(w, ts, m) && i < |w.calls|
    ensures TimersLinked(Put(w, i, WithoutTimer(w.calls[i]).(pc := pc)), Dropped(w, ts, m, i), m)
  {
    var c := w.calls[i];
    var w' := Put(w, i, WithoutTimer(c).(pc := pc));
    if c.timeout.Some? && c.timers != [] {
      var q: (nat, nat) := (i, |c.timers| - 1);
      assert TimerLinked(w, ts, m, q);
      TimerSets.CancelKeeps(ts, m[q]);
      forall r | r in m ensures TimerLinked(w', Dropped(w, ts, m, i), m, r) {
        DroppedAt(w, ts, m, i, pc, r);
      }
    } else {
      SameTimersLinked(w, ts, m, w');
    }
  }

  lemma DroppedAt(w: State, ts: T.State, m: Addresses, i: nat, pc: Pc, r: (nat, nat))
    requires TimersLinked(w, ts, m) && i < |w.calls| && r in m
    requires w.calls[i].timeout.Some? && w.calls[i].timers != []
    ensures TimerLinked(Put(w, i, WithoutTimer(w.calls[i]).(pc := pc)), Dropped(w, ts, m, i), m, r)
  {
    assert TimerLinked(w, ts, m, r) && TimerLinked(w, ts, m, (i, |w.calls[i].timers| - 1));
  }

  // ---- A sweep is expiries ----

  function SweptTimer(t: Timer, now: nat): Timer {
    if t.life == Pending && t.deadline <= now then t.(life := Collected) else t
  }

  function SweptFrom(timers: seq<Timer>, k: nat, now: nat): (r: seq<Timer>)
    requires k <= |timers|
    ensures |r| == |timers|
    ensures forall j :: 0 <= j < |r| ==> r[j] == if j < k then timers[j] else SweptTimer(timers[j], now)
    decreases |timers| - k
  {
    if k == |timers| then timers else SweptFrom(timers, k + 1, now)[k := SweptTimer(timers[k], now)]
  }

  function CallsSweptFrom(calls: seq<Call>, i: nat, now: nat): (r: seq<Call>)
    requires i <= |calls|
    ensures |r| == |calls|
    ensures forall j :: 0 <= j < |r| ==>
      r[j] == if j < i then calls[j] else calls[j].(timers := SweptFrom(calls[j].timers, 0, now))
    decreases |calls| - i
  {
    if i == |calls| then calls
    else CallsSweptFrom(calls, i + 1, now)[i := calls[i].(timers := SweptFrom(calls[i].timers, 0, now))]
  }

  /** Every timer due collected. */
  function SweptAll(w: State): State {
    w.(calls := CallsSweptFrom(w.calls, 0, w.now))
  }

  lemma {:induction false} RunConcat(w: State, first: seq<Action>, second: seq<Action>)
    requires Run(w, first) && Run(After(w, first), second)
    ensures Run(w, first + second) && After(w, first + second) == After(After(w, first), second)
    decreases |first|
  {
    if first == [] {
      assert first + second == second;
    } else {
      assert (first + second)[0] == first[0] && (first + second)[1..] == first[1..] + second;
      RunConcat(Step(w, first[0]), first[1..], second);
    }
  }

  /** The timers of one call from k on, one expiry after the other. */
  lemma {:induction false} CallExpiries(w: State, i: nat, k: nat) returns (steps: seq<Action>)
    requires i < |w.calls| && k <= |w.calls[i].timers|
    ensures Run(w, steps)
    ensures After(w, steps) == Put(w, i, w.calls[i].(timers := SweptFrom(w.calls[i].timers, k, w.now)))
    decreases |w.calls[i].timers| - k
  {
    var c := w.calls[i];
    if k == |c.timers| {
      steps := [];
      assert w.calls[i := c] == w.calls;
    } else if SweptTimer(c.timers[k], w.now) == c.timers[k] {
      steps := CallExpiries(w, i, k + 1);
      assert SweptFrom(c.timers, k + 1, w.now) == SweptFrom(c.timers, k, w.now);
    } else {
      var w1 := Step(w, Expire(i, k));
      var rest := CallExpiries(w1, i, k + 1);
      assert SweptFrom(w1.calls[i].timers, k + 1, w.now) == SweptFrom(c.timers, k, w.now);
      steps := [Expire(i, k)] + rest;
      assert steps[1..] == rest;
    }
  }

  /** The timers of the calls from i on. */
  lemma {:induction false} Expiries(w: State, i: nat) returns (steps: seq<Action>)
    requires i <= |w.calls|
    ensures Run(w, steps) && After(w, steps) == w.(calls := CallsSweptFrom(w.calls, i, w.now))
    decreases |w.calls| - i
  {
    if i == |w.calls| {
      steps := [];
    } else {
      var first := CallExpiries(w, i, 0);
      var w1 := After(w, first);
      var rest := Expiries(w1, i + 1);
      assert CallsSweptFrom(w1.calls, i + 1, w.now) == CallsSweptFrom(w.calls, i, w.now);
      RunConcat(w, first, rest);
      steps := first + rest;
    }
  }

  /** A timer of a call after the sweep, and whether it was swept. */
  lemma SweptTimerLinked(w: State, ts: T.State, m: Addresses, q: (nat, nat))
    requires TimersLinked(w, ts, m) && q in m
    ensures forall k <- ts.queue :: k.addr in ts.recs
    ensures TimerLinked(SweptAll(w), T.Sweep(ts, w.now).0, m, q)
    ensures q.0 < |w.calls| && q.1 < |w.calls[q.0].timers|
    ensures m[q] in T.Sweep(ts, w.now).1 <==> SweptAll(w).calls[q.0].timers[q.1] != w.calls[q.0].timers[q.1]
  {
    TimerSets.SweepIsExact(ts, w.now);
    assert TimerLinked(w, ts, m, q);
    assert SweptAll(w).calls[q.0].timers[q.1] == SweptTimer(w.calls[q.0].timers[q.1], w.now);
  }

  lemma SweptAt(ts: T.State, now: nat)
    requires T.Consistent(ts) && ts.previous <= now
    ensures forall k <- ts.queue :: k.addr in ts.recs
    ensures T.Sweep(ts, now).0.previous <= now
  {
    TimerSets.SweepKeeps(ts, now);
    if ts.queue != [] {
      var due := T.Expired(ts, now);
      TimerSets.RearmAllFlags(ts.(previous := now, queue := ts.queue[|due|..]), due, now);
    }
  }

  /** The sweep of the set collects exactly the timers of the calls that are due. The clock has not gone
      back since the last one, so it is no rollover. */
  lemma SweepLinked(w: State, ts: T.State, m: Addresses)
    requires TimersLinked(w, ts, m)
    ensures forall k <- ts.queue :: k.addr in ts.recs
    ensures TimersLinked(SweptAll(w), T.Sweep(ts, w.now).0, m)
  {
    TimerSets.SweepKeeps(ts, w.now);
    SweptAt(ts, w.now);
    forall q | q in m ensures TimerLinked(SweptAll(w), T.Sweep(ts, w.now).0, m, q) {
      SweptTimerLinked(w, ts, m, q);
    }
  }

  // ---- The whole ----

  ghost predicate Linked(s: Whole, p: Place) {
    && SlotLinked(s.wait, p, s.events) && QueueLinked(s.wait, p, s.events, s.resumed)
    && TimersLinked(s.wait, s.timers, s.address)
  }

  /** What happens next: a step of a call, with the address of the timer it may make; a sweep of the timer
      set; or somebody else's call of the event table. */
  datatype Move = Own(a: Action, addr: nat) | Sweep | Others(t: E.Step)

  ghost predicate Able(s: Whole, p: Place, m: Move)
    requires Linked(s, p)
  {
    match m
    case Own(a, addr) => Enabled(s.wait, a) && !a.Wake? && !a.Expire? && (a.StartTimer? ==> addr !in s.timers.recs)
    case Sweep => true
    case Others(t) => EventProofs.Possible(s.events, t) && Elsewhere(p, t)
  }

  /** What a step of a call does to the table. */
  ghost function EventsAfter(s: Whole, p: Place, a: Action): E.State
    requires Linked(s, p) && Enabled(s.wait, a)
  {
    match a
    case Register(i, fault) => E.AddEvent(s.events, p.fd, p.event, p.scheduler, FiberOf(p, i), fault).0
    case RunCallback(i, _, fault) =>
      if Acts(s.wait, i) then
        assert E.At(s.events, p.fd);
        E.CancelEvent(s.events, p.fd, p.event, fault).0
      else s.events
    case _ => s.events
  }

  /** What a step of a call does to the timers. */
  ghost function TimersAfter(s: Whole, p: Place, a: Action, addr: nat): T.State
    requires Linked(s, p) && Able(s, p, Own(a, addr))
  {
    match a
    case StartTimer(i) => T.Add(s.timers, addr, s.wait.calls[i].timeout.value, addr, false, s.wait.now)
    case Register(i, fault) => if fault then Dropped(s.wait, s.timers, s.address, i) else s.timers
    case DropTimer(i) => Dropped(s.wait, s.timers, s.address, i)
    case _ => s.timers
  }

  ghost function Do(s: Whole, p: Place, m: Move): Whole
    requires Linked(s, p) && Able(s, p, m)
  {
    match m
    case Own(a, addr) =>
      var address := if a.StartTimer? then s.address[(a.i, |s.wait.calls[a.i].timers|) := addr] else s.address;
      var resumed := if a.Resume? then s.resumed + multiset{a.i} else s.resumed;
      Whole(Step(s.wait, a), EventsAfter(s, p, a), TimersAfter(s, p, a, addr), address, resumed)
    case Sweep =>
      TimerSets.SweepKeeps(s.timers, s.wait.now);
      s.(wait := SweptAll(s.wait), timers := T.Sweep(s.timers, s.wait.now).0)
    case Others(t) =>
      s.(wait := if Takes(p, s.events, t) then Step(s.wait, Wake) else s.wait, events := E.Apply(s.events, t).0)
  }

  lemma OwnKeepsSlot(s: Whole, p: Place, a: Action, addr: nat)
    requires Linked(s, p) && Able(s, p, Own(a, addr))
    ensures SlotLinked(Step(s.wait, a), p, EventsAfter(s, p, a))
  {
    if a.Register? {
      RegisterIsAddEvent(s.wait, p, s.events, a.i, a.fault);
    } else if a.RunCallback? && Acts(s.wait, a.i) {
      CallbackIsCancelEvent(s.wait, p, s.events, a.i, a.k, a.fault);
    }
  }

  /** A step that starts no timer and drops none. */
  lemma SparesTimers(w: State, a: Action)
    requires Enabled(w, a) && !a.StartTimer? && !a.DropTimer? && !a.Expire? && (a.Register? ==> !a.fault)
    ensures SameTimers(w, Step(w, a))
  {
    if a.RunCallback? {
      assert Step(w, a).calls[a.i].timers == SetLife(w.calls[a.i], a.k, Ran).timers;
    }
  }

  /** The call's callback wakes the fiber registered. */
  predicate Gains(w: State, a: Action) {
    a.RunCallback? && Acts(w, a.i) && w.slot.Some? && !a.fault
  }

  /** The queue gains what the table hands over, and loses what is resumed. */
  lemma OwnHandsOver(s: Whole, p: Place, a: Action)
    requires Linked(s, p) && Enabled(s.wait, a) && !a.Wake? && !a.Expire?
    ensures var handed := EventsAfter(s, p, a).handed; var queue := Step(s.wait, a).queue;
      && (handed == if Gains(s.wait, a) then s.events.handed + [Woken(s.wait, p)] else s.events.handed)
      && (Gains(s.wait, a) ==> queue == s.wait.queue + multiset{s.wait.slot.value})
      && (a.Resume? ==> a.i in s.wait.queue && queue == s.wait.queue - multiset{a.i})
      && (!Gains(s.wait, a) && !a.Resume? ==> queue == s.wait.queue)
  {
    if a.Register? {
      RegisterIsAddEvent(s.wait, p, s.events, a.i, a.fault);
    } else if a.RunCallback? && Acts(s.wait, a.i) {
      CallbackIsCancelEvent(s.wait, p, s.events, a.i, a.k, a.fault);
    }
  }

  /** One more handed over and queued. */
  lemma QueueGains(w: State, p: Place, ev: E.State, resumed: multiset<nat>, w': State, ev': E.State)
    requires QueueLinked(w, p, ev, resumed) && w.slot.Some?
    requires ev'.handed == ev.handed + [Woken(w, p)] && w'.queue == w.queue + multiset{w.slot.value}
    ensures QueueLinked(w', p, ev', resumed)
  {
    forall i: nat ensures QueueLinkedAt(w', p, ev', resumed, i) {
      assert QueueLinkedAt(w, p, ev, resumed, i);
      assert AsHanded(p, i) == Woken(w, p) <==> i == w.slot.value;
    }
  }

  /** One fewer queued and one more resumed. */
  lemma QueueLoses(w: State, p: Place, ev: E.State, resumed: multiset<nat>, w': State, ev': E.State, n: nat)
    requires QueueLinked(w, p, ev, resumed) && n in w.queue
    requires ev'.handed == ev.handed && w'.queue == w.queue - multiset{n}
    ensures QueueLinked(w', p, ev', resumed + multiset{n})
  {
    forall i: nat ensures QueueLinkedAt(w', p, ev', resumed + multiset{n}, i) {
      assert QueueLinkedAt(w, p, ev, resumed, i);
    }
  }

  lemma QueueSame(w: State, p: Place, ev: E.State, resumed: multiset<nat>, w': State, ev': E.State)
    requires QueueLinked(w, p, ev, resumed) && ev'.handed == ev.handed && w'.queue == w.queue
    ensures QueueLinked(w', p, ev', resumed)
  {
    forall i: nat ensures QueueLinkedAt(w', p, ev', resumed, i) {
      assert QueueLinkedAt(w, p, ev, resumed, i);
    }
  }

  lemma OwnKeepsQueue(s: Whole, p: Place, a: Action, addr: nat)
    requires Linked(s, p) && Able(s, p, Own(a, addr))
    ensures var s' := Do(s, p, Own(a, addr)); QueueLinked(s'.wait, p, s'.events, s'.resumed)
  {
    OwnHandsOver(s, p, a);
    if Gains(s.wait, a) {
      QueueGains(s.wait, p, s.events, s.resumed, Step(s.wait, a), EventsAfter(s, p, a));
    } else if a.Resume? {
      QueueLoses(s.wait, p, s.events, s.resumed, Step(s.wait, a), EventsAfter(s, p, a), a.i);
    } else {
      QueueSame(s.wait, p, s.events, s.resumed, Step(s.wait, a), EventsAfter(s, p, a));
    }
  }

  lemma OwnKeepsTimers(s: Whole, p: Place, a: Action, addr: nat)
    requires Linked(s, p) && Able(s, p, Own(a, addr))
    ensures var s' := Do(s, p, Own(a, addr)); TimersLinked(s'.wait, s'.timers, s'.address)
  {
    if a.StartTimer? {
      StartTimerIsAdd(s.wait, s.timers, s.address, a.i, addr, addr);
    } else if a.DropTimer? {
      DropIsCancel(s.wait, s.timers, s.address, a.i, Checking);
    } else if a.Register? && a.fault {
      DropIsCancel(s.wait, s.timers, s.address, a.i, Finished(Failed));
    } else {
      SparesTimers(s.wait, a);
      SameTimersLinked(s.wait, s.timers, s.address, Step(s.wait, a));
    }
  }

  /** Each move keeps the link, and is a run of steps of the waiting protocol. */
  lemma MoveIsSteps(s: Whole, p: Place, m: Move) returns (steps: seq<Action>)
    requires Linked(s, p) && Able(s, p, m)
    ensures Linked(Do(s, p, m), p)
    ensures Run(s.wait, steps) && After(s.wait, steps) == Do(s, p, m).wait
  {
    match m
    case Own(a, addr) =>
      OwnKeepsSlot(s, p, a, addr);
      OwnKeepsQueue(s, p, a, addr);
      OwnKeepsTimers(s, p, a, addr);
      steps := [a];
      assert [a][1..] == [];
    case Sweep =>
      SweepLinked(s.wait, s.timers, s.address);
      QueueSame(s.wait, p, s.events, s.resumed, SweptAll(s.wait), s.events);
      steps := Expiries(s.wait, 0);
    case Others(t) =>
      OthersAreWake(s.wait, p, s.events, t);
      OthersKeepQueue(s.wait, p, s.events, t, s.resumed);
      if Takes(p, s.events, t) {
        SparesTimers(s.wait, Wake);
        SameTimersLinked(s.wait, s.timers, s.address, Step(s.wait, Wake));
        steps := [Wake];
        assert [Wake][1..] == [];
      } else {
        steps := [];
      }
  }

  ghost predicate WholeRun(s: Whole, p: Place, moves: seq<Move>)
    requires Linked(s, p)
    decreases |moves|
  {
    moves != [] ==>
      Able(s, p, moves[0]) && (KeepsLink(s, p, moves[0]); WholeRun(Do(s, p, moves[0]), p, moves[1..]))
  }

  lemma KeepsLink(s: Whole, p: Place, m: Move)
    requires Linked(s, p) && Able(s, p, m)
    ensures Linked(Do(s, p, m), p)
  {
    var _ := MoveIsSteps(s, p, m);
  }

  ghost function WholeAfter(s: Whole, p: Place, moves: seq<Move>): (s': Whole)
    requires Linked(s, p) && WholeRun(s, p, moves)
    ensures Linked(s', p)
    decreases |moves|
  {
    if moves == [] then s else (KeepsLink(s, p, moves[0]); WholeAfter(Do(s, p, moves[0]), p, moves[1..]))
  }

  /** The table and the timers as constructed, and no call yet. */
  function Begun(now: nat): Whole {
    Whole(Initial(now), E.Start(), TimerProofs.Initial(now), map[], multiset{})
  }

  lemma BegunLinked(now: nat, p: Place)
    ensures Linked(Begun(now), p)
  {
    EventProofs.StartAgrees();
    assert E.At(E.Start(), p.fd);
  }

  lemma {:induction false} RunIsSteps(s: Whole, p: Place, moves: seq<Move>) returns (steps: seq<Action>)
    requires Linked(s, p) && WholeRun(s, p, moves)
    ensures Run(s.wait, steps) && After(s.wait, steps) == WholeAfter(s, p, moves).wait
    ensures Linked(WholeAfter(s, p, moves), p)
    decreases |moves|
  {
    if moves == [] {
      steps := [];
    } else {
      var first := MoveIsSteps(s, p, moves[0]);
      var rest := RunIsSteps(Do(s, p, moves[0]), p, moves[1..]);
      RunConcat(s.wait, first, rest);
      steps := first + rest;
    }
  }

  /** Fiber i is the waiter in the event's context. */
  ghost predicate InContext(ev: E.State, p: Place, i: nat) {
    p.event in EventMeaning.EventsOf(ev, p.fd) &&
    E.GetContext(ev.fds[p.fd], p.event) == E.Occupant(p.scheduler, FiberOf(p, i))
  }

  /** In the table or handed over, as in the slot or queued. */
  lemma PlacesLinked(s: Whole, p: Place, i: nat)
    requires Linked(s, p)
    ensures InContext(s.events, p, i) <==> s.wait.slot == Some(i)
    ensures multiset(s.events.handed)[AsHanded(p, i)] == s.wait.queue[i] + s.resumed[i]
  {
    assert QueueLinkedAt(s.wait, p, s.events, s.resumed, i);
  }

  /** Over every run of calls, sweeps and other people's calls on the real table and the real timers: a
      waiting fiber is in the event's context or was handed over once more than it was resumed, one of the
      two, and any other fiber is not in the context and was resumed as often as it was handed over. */
  lemma OneWayBackInTable(now: nat, p: Place, moves: seq<Move>, i: nat)
    requires (BegunLinked(now, p); WholeRun(Begun(now), p, moves))
    requires (BegunLinked(now, p); i < |WholeAfter(Begun(now), p, moves).wait.calls|)
    ensures (
      BegunLinked(now, p);
      var s := WholeAfter(Begun(now), p, moves);
      (if InContext(s.events, p, i) then 1 else 0) + multiset(s.events.handed)[AsHanded(p, i)]
      == s.resumed[i] + if Waiting(s.wait.calls[i].pc) then 1 else 0)
  {
    BegunLinked(now, p);
    var s := WholeAfter(Begun(now), p, moves);
    var steps := RunIsSteps(Begun(now), p, moves);
    OneWayBack(now, steps, i);
    PlacesLinked(s, p, i);
  }
}
