/** What each timer operation means to its caller, told by which timers are pending and since when,
    without a word about how the set is searched.
 */
module TimerMeaning {
  import opened Options
  import opened TimerSpec
  import opened TimerSets

  /** Since when the timer has been running. */
  function Since(r: Rec): int {
    r.next - r.ms
  }

  /** No timer but a is touched, and the set holds exactly the pending ones. */
  ghost predicate OnlyTouches(s: State, s': State, a: nat) {
    && Consistent(s')
    && (forall b :: b != a ==> (b in s.recs <==> b in s'.recs))
    && (forall b <- s.recs :: b != a ==> s'.recs[b] == s.recs[b])
  }

  /** In a consistent set the first key is the least of all pending timers'. */
  lemma FrontIsLeast(s: State)
    requires Consistent(s)
    ensures s.queue == [] <==> forall b :: !Pending(s, b)
    ensures s.queue != [] ==> Pending(s, s.queue[0].addr) && s.recs[s.queue[0].addr].next == s.queue[0].next
    ensures s.queue != [] ==> forall b :: Pending(s, b) ==> s.queue[0].next <= s.recs[b].next
  {
    if s.queue != [] {
      assert s.queue[0] in s.queue;
      assert Belongs(s, {}, s.queue[0]);
    }
    forall b | Pending(s, b) ensures s.queue != [] && s.queue[0].next <= s.recs[b].next {
      var k := Key(s.recs[b].next, b);
      assert Belongs(s, {}, k);
      assert k in s.queue;
      var i :| 0 <= i < |s.queue| && s.queue[i] == k;
      assert i > 0 ==> Less(s.queue[0], s.queue[i]);
    }
  }

  /** cancel() works exactly on a pending timer, and then it is not pending any more. */
  lemma CancelMeans(s: State, a: nat)
    requires Consistent(s) && a in s.recs
    ensures s.recs[a].cb.Some? ==> InSet(s, a)
    ensures var (s', done) := Cancel(s, a);
      && (done <==> Pending(s, a)) && a in s'.recs && !Pending(s', a)
      && OnlyTouches(s, s', a) && s'.notified == s.notified
  {
    CancelKeeps(s, a);
  }

  /** refresh() works exactly on a pending timer, which then counts its period from now. */
  lemma RefreshMeans(s: State, a: nat, now: nat)
    requires Consistent(s) && a in s.recs
    ensures var (s', done) := Refresh(s, a, now);
      && (done <==> Pending(s, a)) && (!done ==> s' == s)
      && a in s'.recs
      && (done ==>
            && Pending(s', a) && Since(s'.recs[a]) == now && s'.recs[a].ms == s.recs[a].ms
            && s'.recs[a].cb == s.recs[a].cb && s'.recs[a].recurring == s.recs[a].recurring)
      && OnlyTouches(s, s', a) && s'.notified == s.notified
  {
    HeldIfPending(s, a);
    RefreshKeeps(s, a, now);
  }

  /** reset() works on a pending timer, or when there is nothing to change. The new period counts from
      now, or from when the old one did. */
  lemma ResetMeans(s: State, a: nat, ms: nat, fromNow: bool, now: nat)
    requires Consistent(s) && a in s.recs
    ensures var (s', done) := Reset(s, a, ms, fromNow, now); var idle := ms == s.recs[a].ms && !fromNow;
      && (done <==> idle || Pending(s, a)) && (idle || !done ==> s' == s)
      && a in s'.recs && OnlyTouches(s, s', a)
      && (done && !idle ==>
            && Pending(s', a) && s'.recs[a].ms == ms
            && Since(s'.recs[a]) == (if fromNow then now else Since(s.recs[a]))
            && s'.recs[a].cb == s.recs[a].cb && s'.recs[a].recurring == s.recs[a].recurring)
  {
    HeldIfPending(s, a);
    ResetKeeps(s, a, ms, fromNow, now);
    if Pending(s, a) && !(ms == s.recs[a].ms && !fromNow) {
      ResetState(s, a, ms, fromNow, now);
      NotifyAside(Without(s, a).(recs := s.recs[a := ResetRec(s.recs[a], ms, fromNow, now)]), a);
    }
  }

  /** The set's first place is where a new timer goes exactly when its key is before all others. */
  lemma FirstWhenLeast(q: seq<Key>, k: Key)
    requires Sorted(q) && k !in q
    ensures LowerBound(q, k) == 0 <==> forall x :: x in q ==> Less(k, x)
  {
    if LowerBound(q, k) == 0 {
      forall x | x in q ensures Less(k, x) {
        assert q[0] in q;
        var i :| 0 <= i < |q| && q[i] == x;
        assert i > 0 ==> Less(q[0], q[i]);
      }
    } else {
      assert q[0] in q && Less(q[0], k);
    }
  }

  /** addTimer() makes the timer pending from now on, with its callback, for once or for good. The poller is
      woken exactly when the new deadline comes before every pending one and nobody has woken it since its
      last poll. */
  lemma AddMeans(s: State, a: nat, ms: nat, cb: nat, recurring: bool, now: nat)
    requires Consistent(s) && a !in s.recs
    ensures var s' := Add(s, a, ms, cb, recurring, now);
      && Pending(s', a) && Since(s'.recs[a]) == now && s'.recs[a].ms == ms && OnlyTouches(s, s', a)
      && s'.recs[a].recurring == recurring && s'.recs[a].cb == Some(cb)
      && (s'.notified == s.notified + 1 || s'.notified == s.notified)
      && (s'.notified == s.notified + 1 <==>
            !s.tickled && forall b :: Pending(s, b) ==> Less(Key(now + ms, a), Key(s.recs[b].next, b)))
  {
    AddKeeps(s, a, ms, cb, recurring, now);
    var k := Key(now + ms, a);
    assert k in s.queue <==> Belongs(s, {}, k);
    FirstWhenLeast(s.queue, k);
    forall b | Pending(s, b) ensures Key(s.recs[b].next, b) in s.queue {
      assert Belongs(s, {}, Key(s.recs[b].next, b));
    }
    forall x | x in s.queue ensures Pending(s, x.addr) && x == Key(s.recs[x.addr].next, x.addr) {
      assert Belongs(s, {}, x);
    }
  }

  /** reset() that changes anything wakes the poller exactly when the new deadline comes before every other
      pending one and nobody has woken it since its last poll. */
  lemma ResetWakes(s: State, a: nat, ms: nat, fromNow: bool, now: nat)
    requires Consistent(s) && Pending(s, a) && !(ms == s.recs[a].ms && !fromNow)
    ensures var s' := Reset(s, a, ms, fromNow, now).0;
      && a in s'.recs && (s'.notified == s.notified + 1 || s'.notified == s.notified)
      && (s'.notified == s.notified + 1 <==>
            && !s.tickled
            && forall b :: Pending(s, b) && b != a ==> Less(Key(s'.recs[a].next, a), Key(s.recs[b].next, b)))
      && s'.tickled == (s.tickled || s'.notified == s.notified + 1)
  {
    HeldIfPending(s, a);
    ResetState(s, a, ms, fromNow, now);
    TakenOut(s, a);
    var out := Without(s, a);
    var r := ResetRec(s.recs[a], ms, fromNow, now);
    NotifyAside(out.(recs := s.recs[a := r]), a);
    var k := Key(r.next, a);
    forall x | x in out.queue
      ensures x.addr != a && Pending(s, x.addr) && x == Key(s.recs[x.addr].next, x.addr)
    {
      assert Belongs(out, {a}, x);
    }
    forall b | Pending(s, b) && b != a ensures Key(s.recs[b].next, b) in out.queue {
      assert Belongs(out, {a}, Key(s.recs[b].next, b));
    }
    FirstWhenLeast(out.queue, k);
  }

  /** listExpiredCbs() fires exactly the pending timers that are due (all of them after a rollover). A
      recurring one is then pending again since now, a one-shot is not; no other timer changes. Unless the
      set was empty the clock's reading is kept for the next time; nobody is woken. */
  lemma SweepMeans(s: State, now: nat, a: nat)
    requires Consistent(s) && a in s.recs
    ensures forall k <- s.queue :: k.addr in s.recs
    ensures var (s', fired) := Sweep(s, now);
      && a in s'.recs
      && (a in fired <==> Pending(s, a) && (s.recs[a].next <= now || Rollover(s.previous, now)))
      && (a in fired && s.recs[a].recurring ==>
            && Pending(s', a) && Since(s'.recs[a]) == now && s'.recs[a].ms == s.recs[a].ms
            && s'.recs[a].cb == s.recs[a].cb && s'.recs[a].recurring)
      && (a in fired && !s.recs[a].recurring ==> !Pending(s', a))
      && (a !in fired ==> s'.recs[a] == s.recs[a])
      && s'.previous == (if s.queue == [] then s.previous else now)
      && s'.notified == s.notified && s'.tickled == s.tickled
  {
    SweepIsExact(s, now);
    if s.queue != [] {
      var due := Expired(s, now);
      RearmAllFlags(s.(previous := now, queue := s.queue[|due|..]), due, now);
    }
  }

  /** getTimeOfNextTimer() says that nothing is pending, that something is due, or how long it is to the
      earliest deadline. */
  lemma PollMeans(s: State, now: nat)
    requires Consistent(s)
    ensures var (s', wait) := Poll(s, now);
      && (wait == None <==> forall b :: !Pending(s, b))
      && (wait == Some(0) <==> exists b :: Pending(s, b) && s.recs[b].next <= now)
      && (wait.Some? && wait.value > 0 ==>
            && (exists b :: Pending(s, b) && s.recs[b].next == now + wait.value)
            && (forall b :: Pending(s, b) ==> s.recs[b].next >= now + wait.value))
      && s'.recs == s.recs && s'.queue == s.queue && (wait.Some? ==> !s'.tickled)
  {
    FrontIsLeast(s);
    if s.queue != [] {
      assert Pending(s, s.queue[0].addr);
    }
  }
}
