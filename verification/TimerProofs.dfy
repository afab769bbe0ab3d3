/** What the timers promise over whole runs: no wakeup is lost, every one-shot ends exactly one way,
    nothing fires after it was cancelled.
 */
module TimerProofs {
  import opened Options
  import opened TimerSpec
  import opened TimerSets

  // ---- Runs ----

  /** Each call is made on timers that exist, and the clock never goes back. */
  ghost predicate Run(s: State, clock: nat, es: seq<Event>)
    requires Consistent(s)
    decreases |es|
  {
    es != [] ==>
      Allowed(s, es[0]) && clock <= es[0].now && (ApplyKeeps(s, es[0]); Run(Apply(s, es[0]), es[0].now, es[1..]))
  }

  ghost function After(s: State, clock: nat, es: seq<Event>): State
    requires Consistent(s) && Run(s, clock, es)
    decreases |es|
  {
    if es == [] then s else (ApplyKeeps(s, es[0]); After(Apply(s, es[0]), es[0].now, es[1..]))
  }

  ghost function Clock(clock: nat, es: seq<Event>): nat {
    if es == [] then clock else es[|es| - 1].now
  }

  /** The manager as constructed. */
  function Initial(now: nat): (s: State)
    ensures Consistent(s)
  {
    State(map[], [], false, now, 0)
  }

  lemma {:induction false} RunKeeps(s: State, clock: nat, es: seq<Event>)
    requires Consistent(s) && Started(s, clock) && Run(s, clock, es)
    ensures Consistent(After(s, clock, es)) && Started(After(s, clock, es), Clock(clock, es))
    decreases |es|
  {
    if es != [] {
      ApplyKeeps(s, es[0]);
      StartedKept(s, clock, es[0]);
      RunKeeps(Apply(s, es[0]), es[0].now, es[1..]);
    }
  }

  // ---- Every pending timer was started in the past ----

  ghost predicate Started(s: State, clock: nat) {
    forall a :: Pending(s, a) ==> s.recs[a].next <= clock + s.recs[a].ms
  }

  lemma StartedKept(s: State, clock: nat, e: Event)
    requires Consistent(s) && Allowed(s, e) && clock <= e.now && Started(s, clock)
    ensures Started(Apply(s, e), e.now)
  {
    var s' := Apply(s, e);
    if e.call.ListExpired? {
      SweepIsExact(s, e.now);
    }
    forall a | Pending(s', a) ensures s'.recs[a].next <= e.now + s'.recs[a].ms {
      assert Pending(s, a) ==> s.recs[a].next <= clock + s.recs[a].ms;
    }
  }

  // ---- No lost wakeup ----

  /** Since the poll that saw deadline d, with n wakeups before it: another wakeup was issued, or none
      is suppressed and nothing is due before d. */
  ghost predicate Watched(s: State, d: nat, n: nat) {
    s.notified > n || (s.notified == n && !s.tickled && forall k <- s.queue :: k.next >= d)
  }

  /** A timer the poll did not see gets in before d only with a wakeup. */
  lemma WatchedInsert(s: State, out: set<nat>, a: nat, d: nat, n: nat)
    requires ConsistentBut(s, out) && a in out && Pending(s, a) && Watched(s, d, n)
    ensures Watched(InsertAndNotify(s, a), d, n)
  {
    var k := Key(s.recs[a].next, a);
    assert k in s.queue <==> Belongs(s, out, k);
    InsertKeepsOrder(s.queue, k);
    if LowerBound(s.queue, k) > 0 {
      assert s.queue[0] in s.queue;
    }
  }

  lemma WatchedStep(s: State, clock: nat, e: Event, d: nat, n: nat)
    requires Consistent(s) && Allowed(s, e) && clock <= e.now && Started(s, clock) && Watched(s, d, n)
    ensures Watched(Apply(s, e), d, n)
  {
    match e.call
    case AddTimer(a, ms, cb, recurring) =>
      RewrittenOutside(s, {}, a, Rec(recurring, ms, e.now + ms, Some(cb)));
      assert {} + {a} == {a};
      WatchedInsert(s.(recs := s.recs[a := Rec(recurring, ms, e.now + ms, Some(cb))]), {a}, a, d, n);
    case CancelTimer(a) =>
      if Pending(s, a) {
        WatchedOut(s, a, d, n);
      }
    case RefreshTimer(a) => WatchedRefresh(s, clock, a, e.now, d, n);
    case ResetTimer(a, ms, fromNow) => WatchedReset(s, a, ms, fromNow, e.now, d, n);
    case NextTimer =>
    case ListExpired => WatchedSweep(s, clock, e.now, d, n);
  }

  lemma WatchedOut(s: State, a: nat, d: nat, n: nat)
    requires Consistent(s) && Pending(s, a) && Watched(s, d, n)
    ensures InSet(s, a) && Watched(Without(s, a), d, n)
    ensures s.notified > n || s.recs[a].next >= d
  {
    HeldIfPending(s, a);
    assert Belongs(s, {}, Key(s.recs[a].next, a));
    EraseKeepsOrder(s.queue, Key(s.recs[a].next, a));
  }

  /** refresh() puts the timer back without a wakeup, but never before d. */
  lemma WatchedRefresh(s: State, clock: nat, a: nat, now: nat, d: nat, n: nat)
    requires Consistent(s) && a in s.recs && clock <= now && Started(s, clock) && Watched(s, d, n)
    ensures Watched(Refresh(s, a, now).0, d, n)
  {
    HeldIfPending(s, a);
    if Pending(s, a) {
      WatchedOut(s, a, d, n);
      TakenOut(s, a);
      var s1 := Without(s, a);
      var k := Key(now + s.recs[a].ms, a);
      assert k in s1.queue <==> Belongs(s1, {a}, k);
      InsertKeepsOrder(s1.queue, k);
    }
  }

  lemma WatchedReset(s: State, a: nat, ms: nat, fromNow: bool, now: nat, d: nat, n: nat)
    requires Consistent(s) && a in s.recs && Watched(s, d, n)
    ensures Watched(Reset(s, a, ms, fromNow, now).0, d, n)
  {
    HeldIfPending(s, a);
    if Pending(s, a) && !(ms == s.recs[a].ms && !fromNow) {
      WatchedOut(s, a, d, n);
      TakenOut(s, a);
      var r := ResetRec(s.recs[a], ms, fromNow, now);
      RewrittenOutside(Without(s, a), {a}, a, r);
      assert {a} + {a} == {a};
      ResetState(s, a, ms, fromNow, now);
      WatchedInsert(Without(s, a).(recs := s.recs[a := r]), {a}, a, d, n);
    }
  }

  /** A sweep re-arms without a wakeup, but never before d. */
  lemma WatchedSweep(s: State, clock: nat, now: nat, d: nat, n: nat)
    requires Consistent(s) && clock <= now && Started(s, clock) && Watched(s, d, n)
    ensures forall k <- s.queue :: k.addr in s.recs
    ensures Watched(Sweep(s, now).0, d, n)
  {
    SweepKeeps(s, now);
    SweepIsExact(s, now);
    var s' := Sweep(s, now).0;
    if s.queue != [] {
      var due := Expired(s, now);
      RearmAllFlags(s.(previous := now, queue := s.queue[|due|..]), due, now);
    }
    if !(s.notified > n) {
      forall k | k in s'.queue ensures k.next >= d {
        assert Belongs(s', {}, k);
        var was := Key(s.recs[k.addr].next, k.addr);
        assert Pending(s, k.addr);
        assert was in s.queue <==> Belongs(s, {}, was);
      }
    }
  }

  lemma {:induction false} WatchedRun(s: State, clock: nat, es: seq<Event>, d: nat, n: nat)
    requires Consistent(s) && Started(s, clock) && Run(s, clock, es) && Watched(s, d, n)
    ensures Watched(After(s, clock, es), d, n)
    decreases |es|
  {
    if es != [] {
      ApplyKeeps(s, es[0]);
      StartedKept(s, clock, es[0]);
      WatchedStep(s, clock, es[0], d, n);
      WatchedRun(Apply(s, es[0]), es[0].now, es[1..], d, n);
    }
  }

  /** No lost wakeup. The poller asked for the next deadline and was told the front's, d; then any
      calls were made. Either it has been woken since, or nothing is due before d. */
  lemma NoLostWakeup(start: nat, before: seq<Event>, polled: Event, after: seq<Event>)
    requires Run(Initial(start), start, before)
    requires var s := After(Initial(start), start, before);
      && s.queue != [] && polled.call.NextTimer? && Clock(start, before) <= polled.now
      && (RunKeeps(Initial(start), start, before); ApplyKeeps(s, polled); Run(Apply(s, polled), polled.now, after))
    ensures (
      RunKeeps(Initial(start), start, before);
      var s := After(Initial(start), start, before);
      ApplyKeeps(s, polled);
      var s' := After(Apply(s, polled), polled.now, after);
      s'.notified > s.notified || s'.queue == [] || s'.queue[0].next >= s.queue[0].next)
  {
    RunKeeps(Initial(start), start, before);
    var s := After(Initial(start), start, before);
    ApplyKeeps(s, polled);
    StartedKept(s, Clock(start, before), polled);
    forall k | k in s.queue ensures k.next >= s.queue[0].next {
      var i :| 0 <= i < |s.queue| && s.queue[i] == k;
      assert i > 0 ==> Less(s.queue[0], s.queue[i]);
    }
    WatchedRun(Apply(s, polled), polled.now, after, s.queue[0].next, s.notified);
  }

  /** A poll of an empty set leaves the flag as it was: the next timer then wakes the poller exactly
      when the flag was already clear. */
  lemma EmptyPollKeepsSilence(s: State, now: nat, a: nat, ms: nat, cb: nat, recurring: bool,
                              later: nat)
    requires Consistent(s) && s.queue == [] && a !in s.recs
    ensures var s' := Add(Poll(s, now).0, a, ms, cb, recurring, later);
      s'.queue == [Key(later + ms, a)] && (s'.notified == s.notified + 1 <==> !s.tickled)
  {
    var k := Key(later + ms, a);
    assert LowerBound([], k) == 0;
    assert Insert([], k) == [k];
  }

  /** ... and it need not be clear: adding a timer to an empty set and sweeping it leaves the set empty
      and the flag set, so that the poll which follows does not see to the timer added after it. */
  lemma SweptUnannounced(s: State, a: nat, ms: nat, cb: nat, now: nat)
    requires Consistent(s) && s.queue == [] && a !in s.recs && s.previous <= now + ms
    ensures var s1 := Add(s, a, ms, cb, false, now);
      && s1.queue == [Key(now + ms, a)]
      && a in s1.recs && s1.recs[a] == Rec(false, ms, now + ms, Some(cb))
      && Sweep(s1, now + ms).0.queue == [] && Sweep(s1, now + ms).1 == [a]
      && Sweep(s1, now + ms).0.tickled
  {
    EmptyPollKeepsSilence(s, now, a, ms, cb, false, now);
    var s1 := Add(s, a, ms, cb, false, now);
    var k := Key(now + ms, a);
    assert LowerBound([], k) == 0 && Insert([], k) == [k];
    OneIsDue(k);
    assert Expired(s1, now + ms) == [k];
    assert [k][..0] == [] && [k][1..] == [];
    var s2 := s1.(previous := now + ms, queue := []);
    assert RearmAll(s2, [k], now + ms) == Rearm(s2, a, now + ms);
    assert Addresses([k]) == [] + [a] == [a];
  }

  lemma OneIsDue(k: Key)
    ensures DueCount([k], k.next) == 1
  {
    assert [k][1..] == [];
  }

  // ---- Rollover ----

  /** detectClockRollover says "fell back by more than an hour" on exactly the right occasions, except
      when the last sweep was within the first hour of the clock, where any step back counts. */
  lemma RolloverMeaning(previous: nat, now: nat)
    requires previous < TWO64
    ensures (Rollover(previous, now) <==> now + 3_600_000 < previous) <==> (previous >= 3_600_000 || now >= previous)
    ensures previous < 3_600_000 ==> (Rollover(previous, now) <==> now < previous)
  {
    if previous < HOUR {
      assert (previous - HOUR) % TWO64 == previous - HOUR + TWO64;
    } else {
      assert (previous - HOUR) % TWO64 == previous - HOUR;
    }
  }

  // ---- The fate of a timer ----

  datatype Fate = Fired(addr: nat) | Cancelled(addr: nat)

  /** What one call did to timers, for their owners to see. */
  ghost function Fates(s: State, e: Event): multiset<Fate>
    requires Consistent(s) && Allowed(s, e)
  {
    match e.call
    case CancelTimer(a) => HeldIfPending(s, a); if Cancel(s, a).1 then multiset{Cancelled(a)} else multiset{}
    case ListExpired => SweepKeeps(s, e.now); FiredSet(Sweep(s, e.now).1)
    case _ => multiset{}
  }

  ghost function FiredSet(fired: seq<nat>): (m: multiset<Fate>)
    ensures forall f :: m[f] == if f.Fired? then multiset(fired)[f.addr] else 0
  {
    if fired == [] then multiset{}
    else
      assert fired == fired[..|fired| - 1] + [fired[|fired| - 1]];
      FiredSet(fired[..|fired| - 1]) + multiset{Fired(fired[|fired| - 1])}
  }

  ghost function History(s: State, clock: nat, es: seq<Event>): multiset<Fate>
    requires Consistent(s) && Run(s, clock, es)
    decreases |es|
  {
    if es == [] then multiset{}
    else (ApplyKeeps(s, es[0]); Fates(s, es[0]) + History(Apply(s, es[0]), es[0].now, es[1..]))
  }

  /** 1 while the timer has a callback. */
  ghost function Live(s: State, a: nat): nat {
    if Pending(s, a) then 1 else 0
  }

  ghost function Known(s: State, a: nat): nat {
    if a in s.recs then 1 else 0
  }

  lemma FiredOnce(s: State, now: nat)
    requires Consistent(s)
    ensures forall k <- s.queue :: k.addr in s.recs
    ensures forall a :: FiredSet(Sweep(s, now).1)[Fired(a)] == if a in Sweep(s, now).1 then 1 else 0
  {
    SweepIsOrdered(s, now);
    var fired := Sweep(s, now).1;
    forall i, j | 0 <= i < j < |fired| ensures fired[i] != fired[j] {
      assert Less(Key(s.recs[fired[i]].next, fired[i]), Key(s.recs[fired[j]].next, fired[j]));
    }
    forall a ensures multiset(fired)[a] == if a in fired then 1 else 0 {
      DistinctCount(fired, a);
    }
  }

  lemma {:induction false} DistinctCount(s: seq<nat>, a: nat)
    requires forall i, j :: 0 <= i < j < |s| ==> s[i] != s[j]
    ensures multiset(s)[a] == if a in s then 1 else 0
  {
    if s != [] {
      DistinctCount(s[1..], a);
      assert s == [s[0]] + s[1..];
    }
  }

  /** A one-shot leaves the pending timers by firing or by being cancelled, and only so; a timer
      without a callback stays so and has no further fate. */
  ghost predicate FateAdds(s: State, s': State, h: multiset<Fate>, a: nat) {
    && (a in s.recs ==> a in s'.recs && s'.recs[a].recurring == s.recs[a].recurring)
    && (a in s'.recs ==>
          (if s'.recs[a].recurring then 0 else h[Fired(a)]) + h[Cancelled(a)] + Live(s', a) + Known(s, a)
          == Live(s, a) + Known(s', a))
    && (a in s.recs && !Pending(s, a) ==> !Pending(s', a) && h[Fired(a)] == 0 && h[Cancelled(a)] == 0)
  }

  lemma FateOfSweep(s: State, now: nat, a: nat)
    requires Consistent(s)
    ensures forall k <- s.queue :: k.addr in s.recs
    ensures FateAdds(s, Sweep(s, now).0, FiredSet(Sweep(s, now).1), a)
  {
    SweepIsExact(s, now);
    FiredOnce(s, now);
    assert a in s.recs ==> (a in Sweep(s, now).1 ==> Pending(s, a));
  }

  lemma FateOfCancel(s: State, b: nat, a: nat)
    requires Consistent(s) && b in s.recs
    ensures s.recs[b].cb.Some? ==> InSet(s, b)
    ensures FateAdds(s, Cancel(s, b).0, if Cancel(s, b).1 then multiset{Cancelled(b)} else multiset{}, a)
  {
    HeldIfPending(s, b);
  }

  lemma FateOfReset(s: State, b: nat, ms: nat, fromNow: bool, now: nat, a: nat)
    requires Consistent(s) && b in s.recs
    ensures FateAdds(s, Reset(s, b, ms, fromNow, now).0, multiset{}, a)
  {
    HeldIfPending(s, b);
    if Pending(s, b) && !(ms == s.recs[b].ms && !fromNow) {
      ResetState(s, b, ms, fromNow, now);
      NotifyAside(Without(s, b).(recs := s.recs[b := ResetRec(s.recs[b], ms, fromNow, now)]), b);
    }
  }

  lemma FateOfOne(s: State, e: Event, a: nat)
    requires Consistent(s) && Allowed(s, e)
    ensures FateAdds(s, Apply(s, e), Fates(s, e), a)
  {
    match e.call
    case ListExpired => FateOfSweep(s, e.now, a);
    case CancelTimer(b) => FateOfCancel(s, b, a);
    case ResetTimer(b, ms, fromNow) => FateOfReset(s, b, ms, fromNow, e.now, a);
    case _ =>
  }

  /** Nothing is collected after a successful cancel, nor after a one-shot fired. */
  lemma {:induction false} NothingAfterTheEnd(s: State, clock: nat, es: seq<Event>, a: nat)
    requires Consistent(s) && Run(s, clock, es) && a in s.recs && !Pending(s, a)
    ensures !Pending(After(s, clock, es), a)
    ensures Fired(a) !in History(s, clock, es) && Cancelled(a) !in History(s, clock, es)
    decreases |es|
  {
    if es != [] {
      ApplyKeeps(s, es[0]);
      FateOfOne(s, es[0], a);
      NothingAfterTheEnd(Apply(s, es[0]), es[0].now, es[1..], a);
    }
  }

  lemma {:induction false} FateFrom(s: State, clock: nat, es: seq<Event>, a: nat)
    requires Consistent(s) && Run(s, clock, es)
    ensures FateAdds(s, After(s, clock, es), History(s, clock, es), a)
    decreases |es|
  {
    if es != [] {
      ApplyKeeps(s, es[0]);
      FateOfOne(s, es[0], a);
      FateFrom(Apply(s, es[0]), es[0].now, es[1..], a);
      FateOfUnknown(s, es[0], a);
    }
  }

  lemma FateOfUnknown(s: State, e: Event, a: nat)
    requires Consistent(s) && Allowed(s, e)
    ensures a !in s.recs ==> Fates(s, e)[Fired(a)] == 0 && Fates(s, e)[Cancelled(a)] == 0
  {
    if e.call.ListExpired? {
      FiredOnce(s, e.now);
      SweepIsOrdered(s, e.now);
    }
  }

  // ---- What becomes of an addTimer ----

  /** The timer is what addTimer made: it recurs or not, and as long as it is pending its callback is cb. */
  ghost predicate Is(s: State, a: nat, cb: nat, recurring: bool) {
    a in s.recs && s.recs[a].recurring == recurring && (Pending(s, a) ==> s.recs[a].cb == Some(cb))
  }

  lemma IsKept(s: State, e: Event, a: nat, cb: nat, recurring: bool)
    requires Consistent(s) && Allowed(s, e) && Is(s, a, cb, recurring)
    ensures Is(Apply(s, e), a, cb, recurring)
  {
    match e.call
    case CancelTimer(b) => HeldIfPending(s, b);
    case RefreshTimer(b) => HeldIfPending(s, b);
    case ResetTimer(b, ms, fromNow) =>
      HeldIfPending(s, b);
      if Pending(s, b) && !(ms == s.recs[b].ms && !fromNow) {
        ResetState(s, b, ms, fromNow, e.now);
        NotifyAside(Without(s, b).(recs := s.recs[b := ResetRec(s.recs[b], ms, fromNow, e.now)]), b);
      }
    case ListExpired => SweepIsExact(s, e.now);
    case _ =>
  }

  lemma {:induction false} IsKeptOver(s: State, clock: nat, es: seq<Event>, a: nat, cb: nat, recurring: bool)
    requires Consistent(s) && Run(s, clock, es) && Is(s, a, cb, recurring)
    ensures Is(After(s, clock, es), a, cb, recurring)
    decreases |es|
  {
    if es != [] {
      ApplyKeeps(s, es[0]);
      IsKept(s, es[0], a, cb, recurring);
      IsKeptOver(Apply(s, es[0]), es[0].now, es[1..], a, cb, recurring);
    }
  }

  lemma {:induction false} AddedIs(s: State, clock: nat, es: seq<Event>, n: nat, a: nat, ms: nat, cb: nat,
                                   recurring: bool)
    requires Consistent(s) && Run(s, clock, es) && n < |es| && es[n].call == AddTimer(a, ms, cb, recurring)
    ensures Is(After(s, clock, es), a, cb, recurring)
    decreases |es|
  {
    ApplyKeeps(s, es[0]);
    if n == 0 {
      IsKeptOver(Apply(s, es[0]), es[0].now, es[1..], a, cb, recurring);
    } else {
      AddedIs(Apply(s, es[0]), es[0].now, es[1..], n - 1, a, ms, cb, recurring);
    }
  }

  /** Over any run from the start with an addTimer among its calls: as a one-shot the timer is still pending,
      or fired once, or was cancelled once, and exactly one of the three; as a recurring one it is pending
      until it is cancelled. Whatever sweep collects it next yields the callback it was added with. */
  lemma AddedTimerFate(start: nat, es: seq<Event>, n: nat, a: nat, ms: nat, cb: nat, recurring: bool, now: nat)
    requires Run(Initial(start), start, es) && n < |es| && es[n].call == AddTimer(a, ms, cb, recurring)
    ensures var s := After(Initial(start), start, es); var h := History(Initial(start), start, es);
      && a in s.recs
      && h[Cancelled(a)] + Live(s, a) + (if recurring then 0 else h[Fired(a)]) == 1
    ensures var s := After(Initial(start), start, es);
      && Consistent(s) && (forall k <- s.queue :: k.addr in s.recs)
      && var due := DueKeys(s, now); var fired := Sweep(s, now).1; var cbs := Callbacks(s.recs, due);
         |cbs| == |fired| && forall i :: 0 <= i < |fired| && fired[i] == a ==> cbs[i] == Some(cb)
  {
    AddedIs(Initial(start), start, es, n, a, ms, cb, recurring);
    TimerFate(start, es, a);
    var s := After(Initial(start), start, es);
    KeepsConsistent(Initial(start), start, es);
    SweepIsExact(s, now);
    SweptKeys(s, now);
  }

  lemma {:induction false} KeepsConsistent(s: State, clock: nat, es: seq<Event>)
    requires Consistent(s) && Run(s, clock, es)
    ensures Consistent(After(s, clock, es))
    decreases |es|
  {
    if es != [] {
      ApplyKeeps(s, es[0]);
      KeepsConsistent(Apply(s, es[0]), es[0].now, es[1..]);
    }
  }

  /** What a sweep lists and the callbacks it collects are of the same timers, all pending. */
  lemma SweptKeys(s: State, now: nat)
    requires Consistent(s)
    ensures forall k <- s.queue :: k.addr in s.recs
    ensures var due := DueKeys(s, now); var fired := Sweep(s, now).1;
      |due| == |fired| && forall i :: 0 <= i < |due| ==>
        due[i].addr in s.recs && fired[i] == due[i].addr && Pending(s, fired[i])
  {
    SweepIsExact(s, now);
    var fired := Sweep(s, now).1;
    SweepIsOrdered(s, now);
    forall i | 0 <= i < |fired| ensures Pending(s, fired[i]) {
      assert fired[i] in fired;
    }
  }

  /** Over any run from the start: a one-shot is still pending, or fired once, or was cancelled once,
      and exactly one of the three; a recurring timer is pending until it is cancelled. */
  lemma TimerFate(start: nat, es: seq<Event>, a: nat)
    requires Run(Initial(start), start, es)
    requires a in After(Initial(start), start, es).recs
    ensures var s := After(Initial(start), start, es); var h := History(Initial(start), start, es);
      && h[Cancelled(a)] + Live(s, a) + (if s.recs[a].recurring then 0 else h[Fired(a)]) == 1
  {
    FateFrom(Initial(start), start, es, a);
  }
}
