/** Timer and TimerManager in the form the program has them: objects whose fields the operations
    rewrite, and an ordered set of pointers to them. Every method is proved to do to the fields what
    TimerSpec says it does to the value. The set is kept as a sequence in its order and searched one
    by one; the clock, and the address the allocator picks, are arguments.
 */
module Timers {
  import opened Options
  import opened TimerSpec
  import TimerSets

  class Timer {
    const addr: nat
    const recurring: bool
    const manager: TimerManager
    var ms: nat
    var next: nat
    var cb: Option<nat>

    constructor (addr: nat, ms: nat, cb: nat, recurring: bool, manager: TimerManager, now: nat)
      ensures this.addr == addr && this.recurring == recurring && this.manager == manager
      ensures this.ms == ms && next == now + ms && this.cb == Some(cb)
    {
      this.addr := addr;
      this.recurring := recurring;
      this.manager := manager;
      this.ms := ms;
      this.cb := Some(cb);
      next := now + ms;
    }

    ghost function Value(): Rec
      reads this
    {
      Rec(recurring, ms, next, cb)
    }

    ghost predicate Known()
      reads manager`objs
    {
      addr in manager.objs && manager.objs[addr] == this
    }

    /** The timer is known to a manager that is in order. */
    ghost predicate Owned()
      reads this, manager, manager.objs.Values
    {
      manager.Valid() && Known()
    }

    /** The fields of a timer that is not in the set are written. */
    method Rewrite(newMs: nat, newNext: nat, newCb: Option<nat>)
      requires Known() && manager.Shows() && this !in manager.timers
      modifies this, manager`state
      ensures Known() && manager.Shows()
      ensures manager.state
        == old(manager.state).(recs := old(manager.state).recs[addr := Rec(recurring, newMs, newNext, newCb)])
      ensures ms == newMs && next == newNext && cb == newCb
    {
      ms := newMs;
      next := newNext;
      cb := newCb;
      manager.state := manager.state.(recs := manager.state.recs[addr := Value()]);
    }

    method Cancel() returns (done: bool)
      requires Owned()
      modifies this, manager
      ensures Owned() && manager.objs == old(manager.objs)
      ensures old(manager.state.recs[addr].cb.Some? ==> InSet(manager.state, addr))
      ensures (manager.state, done) == TimerSpec.Cancel(old(manager.state), addr)
    {
      ghost var s := manager.state;
      TimerSets.CancelKeeps(s, addr);
      if cb.Some? {
        var _ := manager.Erase(this);
        Rewrite(ms, next, None);
        assert manager.state == TimerSpec.Cancel(s, addr).0;
        return true;
      }
      return false;
    }

    method Refresh(now: nat) returns (done: bool)
      requires Owned()
      modifies this, manager
      ensures Owned() && manager.objs == old(manager.objs)
      ensures (manager.state, done) == TimerSpec.Refresh(old(manager.state), addr, now)
    {
      ghost var s := manager.state;
      if cb == None {
        return false;
      }
      var found := manager.Erase(this);
      if !found {
        return false;
      }
      ghost var s1 := manager.state;
      Rewrite(ms, now + ms, cb);
      TimerSets.RefreshInSteps(s, addr, now, s1, manager.state);
      var _ := manager.Insert(this);
      return true;
    }

    method Reset(newMs: nat, fromNow: bool, now: nat) returns (done: bool)
      requires Owned()
      modifies this, manager
      ensures Owned() && manager.objs == old(manager.objs)
      ensures (manager.state, done) == TimerSpec.Reset(old(manager.state), addr, newMs, fromNow, now)
    {
      ghost var s := manager.state;
      if newMs == ms && !fromNow {
        return true;
      }
      if cb == None {
        return false;
      }
      var found := manager.Erase(this);
      if !found {
        return false;
      }
      var start := if fromNow then now else next - ms;
      ghost var s1 := manager.state;
      Rewrite(newMs, start + newMs, cb);
      TimerSets.ResetInSteps(s, addr, newMs, fromNow, now, s1, manager.state);
      manager.AddExisting(this);
      return true;
    }
  }

  class TimerManager {
    var timers: seq<Timer>
    var tickled: bool
    var previous: nat
    var notified: nat
    ghost var objs: map<nat, Timer>   // every timer made so far, by address
    ghost var state: State

    constructor (now: nat)
      ensures Valid() && fresh(this) && state == State(map[], [], false, now, 0)
    {
      timers := [];
      tickled := false;
      previous := now;
      notified := 0;
      objs := map[];
      state := State(map[], [], false, now, 0);
    }

    ghost predicate ShowsQueue()
      reads this, timers
    {
      && |state.queue| == |timers|
      && forall i :: 0 <= i < |timers| ==> state.queue[i] == Key(timers[i].next, timers[i].addr)
    }

    ghost predicate ShowsTimers()
      reads this, objs.Values
    {
      && state.recs.Keys == objs.Keys
      && (forall a <- objs :: objs[a].addr == a && objs[a].manager == this && state.recs[a] == objs[a].Value())
      && state.tickled == tickled && state.previous == previous && state.notified == notified
    }

    ghost predicate Closed()
      reads this
    {
      forall i :: 0 <= i < |timers| ==> timers[i].addr in objs && objs[timers[i].addr] == timers[i]
    }

    /** The fields show the state. */
    ghost predicate Shows()
      reads this, objs.Values, timers
    {
      Closed() && ShowsQueue() && ShowsTimers()
    }

    ghost predicate Valid()
      reads this, objs.Values
    {
      Closed() && (assert forall t <- timers :: t in objs.Values; Shows()) && Consistent(state)
    }

    method LowerBound(next: nat, addr: nat) returns (i: nat)
      requires ShowsQueue()
      ensures i == TimerSpec.LowerBound(state.queue, Key(next, addr))
    {
      i := 0;
      while i < |timers| && (timers[i].next < next || (timers[i].next == next && timers[i].addr < addr))
        invariant i <= |timers|
        invariant forall j :: 0 <= j < i ==> Less(state.queue[j], Key(next, addr))
      {
        i := i + 1;
      }
    }

    /** find: the place of the timer, or the end. */
    method Find(t: Timer) returns (i: nat)
      requires ShowsQueue()
      ensures i == if Found(state.queue, Key(t.next, t.addr))
        then TimerSpec.LowerBound(state.queue, Key(t.next, t.addr)) else |timers|
    {
      i := LowerBound(t.next, t.addr);
      if i < |timers| && (t.next < timers[i].next || (t.next == timers[i].next && t.addr < timers[i].addr)) {
        i := |timers|;
      }
    }

    /** find, and erase what was found. */
    method Erase(t: Timer) returns (found: bool)
      requires Valid() && t.addr in objs && objs[t.addr] == t && t.cb.Some?
      modifies this`timers, this`state
      ensures found == InSet(old(state), t.addr)
      ensures Shows()
      ensures found ==> t !in timers && state == Without(old(state), t.addr)
      ensures !found ==> state == old(state)
    {
      var i := Find(t);
      found := i < |timers|;
      if found {
        TimerSets.TakenOutPlaces(state, t.addr);
        TakeFrom(i, t, Without(state, t.addr).queue);
      }
    }

    /** Takes the timer in place i out of the set. */
    method TakeFrom(i: nat, t: Timer, ghost q: seq<Key>)
      requires Shows() && i < |timers| == |q| + 1
      requires forall j :: 0 <= j < |q| ==> q[j] == state.queue[if j < i then j else j + 1] && q[j].addr != t.addr
      modifies this`timers, this`state
      ensures Shows() && t !in timers && state == old(state).(queue := q)
    {
      ghost var was := timers;
      timers := timers[..i] + timers[i + 1..];
      state := state.(queue := q);
      forall j | 0 <= j < |timers|
        ensures timers[j].addr in objs && objs[timers[j].addr] == timers[j] && timers[j] != t
        ensures q[j] == Key(timers[j].next, timers[j].addr)
      {
        var k := if j < i then j else j + 1;
        assert timers[j] == was[k] && q[j] == Key(was[k].next, was[k].addr);
      }
    }

    /** Puts the timer in place k of the set. */
    method PlaceAt(k: nat, t: Timer, ghost q: seq<Key>)
      requires Shows() && t.addr in objs && objs[t.addr] == t
      requires k <= |timers| && TimerSets.PutIn(state.queue, k, Key(t.next, t.addr), q)
      modifies this`timers, this`state
      ensures Shows() && state == old(state).(queue := q)
      ensures forall x :: x in timers ==> x == t || x in old(timers)
    {
      ghost var was := timers;
      timers := timers[..k] + [t] + timers[k..];
      state := state.(queue := q);
      forall j | 0 <= j < |timers|
        ensures timers[j].addr in objs && objs[timers[j].addr] == timers[j]
        ensures q[j] == Key(timers[j].next, timers[j].addr)
      {
        if j != k {
          assert timers[j] == was[if j < k then j else j - 1];
        }
      }
    }

    /** insert: returns whether the timer is now first. */
    method Insert(t: Timer) returns (first: bool)
      requires Shows() && t.addr in objs && objs[t.addr] == t
      modifies this`timers, this`state
      ensures Shows()
      ensures state == old(state).(queue := TimerSpec.Insert(old(state.queue), Key(t.next, t.addr)))
      ensures first <==> TimerSpec.LowerBound(old(state.queue), Key(t.next, t.addr)) == 0
      ensures forall x :: x in timers ==> x == t || x in old(timers)
    {
      var k: nat := LowerBound(t.next, t.addr);
      var i: nat := Find(t);
      first := k == 0;
      TimerSets.InsertPlaces(state.queue, Key(t.next, t.addr));
      if i == |timers| {
        PlaceAt(k, t, TimerSpec.Insert(state.queue, Key(t.next, t.addr)));
      }
    }

    /** addTimer(timer, lock) */
    method AddExisting(t: Timer)
      requires Shows() && t.addr in objs && objs[t.addr] == t
      modifies this
      ensures Shows() && objs == old(objs)
      ensures state == InsertAndNotify(old(state), t.addr)
    {
      ghost var s := state;
      var first := Insert(t);
      var atFront := first && !tickled;
      if atFront {
        tickled := true;
      }
      if atFront {
        notified := notified + 1;
      }
      state := InsertAndNotify(s, t.addr);
    }

    /** A new timer, not in the set yet. */
    method Make(addr: nat, ms: nat, cb: nat, recurring: bool, now: nat) returns (t: Timer)
      requires Shows() && addr !in objs
      modifies this`objs, this`state
      ensures fresh(t) && t.addr == addr && t.manager == this
      ensures Shows() && objs == old(objs)[addr := t]
      ensures state == old(state).(recs := old(state).recs[addr := Rec(recurring, ms, now + ms, Some(cb))])
    {
      t := new Timer(addr, ms, cb, recurring, this, now);
      objs := objs[addr := t];
      state := state.(recs := state.recs[addr := t.Value()]);
    }

    method AddTimer(addr: nat, ms: nat, cb: nat, recurring: bool, now: nat) returns (t: Timer)
      requires Valid() && addr !in objs
      modifies this
      ensures fresh(t) && Valid() && t.Owned() && objs == old(objs)[addr := t]
      ensures state == TimerSpec.Add(old(state), addr, ms, cb, recurring, now)
    {
      ghost var s := state;
      t := Make(addr, ms, cb, recurring, now);
      AddExisting(t);
      TimerSets.AddKeeps(s, addr, ms, cb, recurring, now);
    }

    /** getTimeOfNextTimer */
    method GetTimeOfNextTimer(now: nat) returns (wait: Option<nat>)
      requires Valid()
      modifies this
      ensures Valid() && objs == old(objs)
      ensures (state, wait) == Poll(old(state), now)
    {
      ghost var s := state;
      TimerSets.ApplyKeeps(s, Event(NextTimer, now));
      if |timers| == 0 {
        return None;
      }
      tickled := false;
      state := Poll(s, now).0;
      if now >= timers[0].next {
        return Some(0);
      } else {
        return Some(timers[0].next - now);
      }
    }

    method DetectClockRollover(now: nat) returns (rollover: bool)
      modifies this`previous
      ensures rollover == Rollover(old(previous), now) && previous == now
    {
      rollover := now < previous && now < (previous - HOUR) % TWO64;
      previous := now;
    }

    /** What a sweep does with one timer it has taken out. */
    method RearmOne(t: Timer, now: nat)
      requires Shows() && t.manager == this && t.Known() && t !in timers
      modifies this`timers, this`state, t
      ensures objs == old(objs) && previous == old(previous)
      ensures Shows() && state == Rearm(old(state), t.addr, now)
      ensures forall x :: x in timers ==> x == t || x in old(timers)
    {
      ghost var s := state;
      ghost var r := t.Value();
      assert s.recs[t.addr] == r;
      if t.recurring {
        t.Rewrite(t.ms, now + t.ms, t.cb);
        assert state == s.(recs := s.recs[t.addr := r.(next := now + r.ms)]);
        var _ := Insert(t);
      } else {
        t.Rewrite(t.ms, t.next, None);
        assert state == s.(recs := s.recs[t.addr := r.(cb := None)]);
      }
      TimerSets.RearmInSteps(s, t.addr, now);
    }

    /** Where the timers that are due end. The probe's address does not matter. */
    method EndOfDue(now: nat, probe: nat) returns (n: nat)
      requires ShowsQueue() && Sorted(state.queue)
      ensures n == DueCount(state.queue, now)
    {
      n := LowerBound(now, probe);
      while n < |timers| && timers[n].next == now
        invariant n <= |timers|
        invariant forall i :: 0 <= i < n ==> state.queue[i].next <= now
        invariant n < |timers| ==> state.queue[n].next >= now
      {
        assert n + 1 < |timers| ==> Less(state.queue[n], state.queue[n + 1]);
        n := n + 1;
      }
      TimerSets.DueCountIs(state.queue, now, n);
    }

    /** The expired timers are taken off the front ... */
    method TakeDue(n: nat) returns (expired: seq<Timer>)
      requires Shows() && n <= |timers| && Distinct(state.queue)
      modifies this`timers, this`state
      ensures expired == old(timers[..n]) && timers == old(timers[n..]) && Shows()
      ensures state == old(state).(queue := old(state.queue[n..]))
      ensures forall i :: 0 <= i < n ==> expired[i].Known() && expired[i].manager == this && expired[i] !in timers
      ensures forall i, j :: 0 <= i < j < n ==> expired[i] != expired[j]
    {
      expired := timers[..n];
      timers := timers[n..];
      state := state.(queue := state.queue[n..]);
    }

    /** From place n on: timers taken out, different ones, with the keys they stood under. */
    ghost predicate Out(expired: seq<Timer>, due: seq<Key>, n: nat)
      reads this
    {
      && |due| == |expired|
      && (forall i :: 0 <= i < |expired| ==>
            && expired[i].manager == this && due[i].addr == expired[i].addr
            && expired[i].addr in objs && objs[expired[i].addr] == expired[i])
      && (forall i :: n <= i < |expired| ==> expired[i] !in timers)
      && (forall i, j :: 0 <= i < j < |expired| ==> expired[i] != expired[j])
    }

    /** The next of them is dealt with. */
    method RearmNext(expired: seq<Timer>, now: nat, ghost due: seq<Key>, n: nat) returns (cb: Option<nat>)
      requires Shows() && Out(expired, due, n) && n < |expired|
      modifies this`timers, this`state, expired[n]
      ensures objs == old(objs) && previous == old(previous)
      ensures Shows() && Out(expired, due, n + 1)
      ensures state == Rearm(old(state), due[n].addr, now)
      ensures cb == old(state).recs[due[n].addr].cb
    {
      cb := expired[n].cb;
      RearmOne(expired[n], now);
    }

    /** ... and each is re-armed or retired. */
    method RearmDue(expired: seq<Timer>, now: nat, ghost due: seq<Key>) returns (cbs: seq<Option<nat>>)
      requires Shows() && Out(expired, due, 0) && Distinct(due)
      modifies this`timers, this`state, expired
      ensures objs == old(objs) && previous == old(previous)
      ensures Shows()
      ensures forall k <- due :: k.addr in old(state).recs
      ensures state == RearmAll(old(state), due, now)
      ensures cbs == TimerSets.Callbacks(old(state).recs, due)
    {
      cbs := [];
      ghost var states := [state];
      var n: nat := 0;
      while n < |expired|
        invariant n <= |expired| && Shows() && Out(expired, due, n)
        invariant objs == old(objs) && previous == old(previous)
        invariant TimerSets.Chain(states, due, now) && |states| == n + 1
        invariant states[0] == old(state) && state == states[n]
        invariant TimerSets.Collected(states, due, cbs, n)
      {
        var cb := RearmNext(expired, now, due, n);
        TimerSets.ChainGrows(states, due, now, cbs, state, cb);
        cbs := cbs + [cb];
        states := states + [state];
        n := n + 1;
      }
      TimerSets.ChainEnds(states, due, now, cbs);
    }

    method Collect(n: nat, now: nat) returns (cbs: seq<Option<nat>>)
      requires Shows() && n <= |timers| && Distinct(state.queue)
      modifies this`timers, this`state, objs.Values
      ensures objs == old(objs) && previous == old(previous)
      ensures Shows()
      ensures n <= |old(state).queue| && forall k <- old(state).queue[..n] :: k.addr in old(state).recs
      ensures state == RearmAll(old(state).(queue := old(state).queue[n..]), old(state).queue[..n], now)
      ensures cbs == TimerSets.Callbacks(old(state).recs, old(state).queue[..n])
    {
      ghost var due := state.queue[..n];
      var expired := TakeDue(n);
      assert forall t <- expired :: t.Known() && t in objs.Values;
      cbs := RearmDue(expired, now, due);
    }

    method SweepDue(n: nat, now: nat, ghost s: State) returns (cbs: seq<Option<nat>>)
      requires Shows() && Consistent(s) && s.queue != [] && state == s.(previous := now)
      requires n == if Rollover(s.previous, now) then |s.queue| else DueCount(s.queue, now)
      modifies this, objs.Values
      ensures Valid() && objs == old(objs)
      ensures forall k <- s.queue :: k.addr in s.recs
      ensures state == Sweep(s, now).0
      ensures cbs == TimerSets.Callbacks(s.recs, TimerSets.DueKeys(s, now))
    {
      TimerSets.NoneTwice(s);
      ghost var cut := state.(queue := state.queue[n..]);
      cbs := Collect(n, now);
      TimerSets.SweepInSteps(s, now, n, cut);
    }

    method ListExpired(now: nat, probe: nat) returns (cbs: seq<Option<nat>>)
      requires Valid()
      modifies this, objs.Values
      ensures Valid() && objs == old(objs)
      ensures forall k <- old(state).queue :: k.addr in old(state).recs
      ensures state == Sweep(old(state), now).0
      ensures cbs == TimerSets.Callbacks(old(state).recs, TimerSets.DueKeys(old(state), now))
    {
      ghost var s := state;
      if |timers| == 0 {
        return [];
      }
      var rollover := DetectClockRollover(now);
      state := state.(previous := now);
      if !rollover && timers[0].next > now {
        TimerSets.DueCountIs(s.queue, now, 0);
        TimerSets.SweepInSteps(s, now, 0, s.(previous := now, queue := s.queue[0..]));
        return [];
      }
      var n: nat := |timers|;
      if !rollover {
        n := EndOfDue(now, probe);
      }
      cbs := SweepDue(n, now, s);
    }
  }
}
