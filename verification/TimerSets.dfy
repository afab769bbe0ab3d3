/** The timer set stays consistent: every operation keeps it ordered and holding exactly the timers
    that have a callback, each under its present deadline.
 */
module TimerSets {
  import opened Options
  import opened TimerSpec

  // ---- Insert and Erase on an ordered set ----

  /** r is q with k put in at place i. */
  ghost predicate PutIn(q: seq<Key>, i: nat, k: Key, r: seq<Key>) {
    && |r| == |q| + 1 && i <= |q| && r[i] == k
    && (forall j :: 0 <= j < i ==> r[j] == q[j])
    && (forall j :: i < j < |r| ==> r[j] == q[j - 1])
  }

  lemma PutInOrdered(q: seq<Key>, i: nat, k: Key, r: seq<Key>)
    requires Sorted(q) && PutIn(q, i, k, r)
    requires forall j :: 0 <= j < i ==> Less(q[j], k)
    requires forall j :: i <= j < |q| ==> Less(k, q[j])
    ensures Sorted(r)
  {
    forall j, l | 0 <= j < l < |r| ensures Less(r[j], r[l]) {
      if l < i {
        assert Less(q[j], q[l]);
      } else if i < j {
        assert Less(q[j - 1], q[l - 1]);
      } else if j < i < l {
        assert Less(q[j], q[l - 1]);
      }
    }
  }

  lemma PutInMembers(q: seq<Key>, i: nat, k: Key, r: seq<Key>)
    requires PutIn(q, i, k, r)
    ensures forall x :: x in r <==> x in q || x == k
  {
    forall x ensures x in r <==> x in q || x == k {
      if x in q {
        var j :| 0 <= j < |q| && q[j] == x;
        assert r[if j < i then j else j + 1] == x;
      }
    }
  }

  lemma InsertPlaces(q: seq<Key>, k: Key)
    ensures Found(q, k) ==> Insert(q, k) == q
    ensures !Found(q, k) ==> PutIn(q, LowerBound(q, k), k, Insert(q, k))
  {
  }

  lemma InsertKeepsOrder(q: seq<Key>, k: Key)
    requires Sorted(q) && k !in q
    ensures Sorted(Insert(q, k))
    ensures forall x :: x in Insert(q, k) <==> x in q || x == k
    ensures Insert(q, k)[0] == k <==> LowerBound(q, k) == 0
  {
    FoundIffMember(q, k);
    var i := LowerBound(q, k);
    forall j | i <= j < |q| ensures Less(k, q[j]) {
      assert q[i] in q;
      assert Less(k, q[i]);
    }
    assert i > 0 ==> q[0] in q;
    PutInOrdered(q, i, k, Insert(q, k));
    PutInMembers(q, i, k, Insert(q, k));
  }

  lemma EraseKeepsOrder(q: seq<Key>, k: Key)
    requires Sorted(q) && k in q
    ensures Found(q, k) && Sorted(Erase(q, k))
    ensures forall x :: x in Erase(q, k) <==> x in q && x != k
  {
    FoundIffMember(q, k);
    var i := LowerBound(q, k);
    assert q[i] == k;
    assert q == q[..i] + [k] + q[i + 1..];
    forall x ensures x in Erase(q, k) <==> x in q && x != k {
      assert x in q <==> x in q[..i] || x == k || x in q[i + 1..];
    }
  }

  // ---- Taking out and putting back ----

  lemma TakenOut(s: State, a: nat)
    requires Consistent(s) && Pending(s, a)
    ensures InSet(s, a) && ConsistentBut(Without(s, a), {a})
  {
    HeldIfPending(s, a);
    var k := Key(s.recs[a].next, a);
    var s' := Without(s, a);
    assert Belongs(s, {}, k);
    EraseKeepsOrder(s.queue, k);
    forall x ensures x in s'.queue <==> Belongs(s', {a}, x) {
      assert x in s.queue <==> Belongs(s, {}, x);
    }
  }

  /** The set without the timer, place by place. */
  lemma TakenOutPlaces(s: State, a: nat)
    requires Consistent(s) && Pending(s, a)
    ensures InSet(s, a)
    ensures var i := LowerBound(s.queue, Key(s.recs[a].next, a)); var q := Without(s, a).queue;
      && i < |s.queue| == |q| + 1
      && (forall j :: 0 <= j < i ==> q[j] == s.queue[j])
      && (forall j :: i <= j < |q| ==> q[j] == s.queue[j + 1])
      && (forall j :: 0 <= j < |q| ==> q[j].addr != a)
  {
    TakenOut(s, a);
    var q := Without(s, a).queue;
    forall j | 0 <= j < |q| ensures q[j].addr != a {
      assert q[j] in q;
      assert Belongs(Without(s, a), {a}, q[j]);
    }
  }

  /** A record may be rewritten while its timer is out. */
  lemma RewrittenOutside(s: State, out: set<nat>, a: nat, r: Rec)
    requires ConsistentBut(s, out) && (a in out || a !in s.recs) && r.ms <= r.next
    ensures ConsistentBut(s.(recs := s.recs[a := r]), out + {a})
  {
    var s' := s.(recs := s.recs[a := r]);
    forall x ensures x in s'.queue <==> Belongs(s', out + {a}, x) {
      assert x in s.queue <==> Belongs(s, out, x);
    }
  }

  lemma PutBack(s: State, out: set<nat>, a: nat)
    requires ConsistentBut(s, out) && a in out && Pending(s, a)
    ensures ConsistentBut(s.(queue := Insert(s.queue, Key(s.recs[a].next, a))), out - {a})
  {
    var k := Key(s.recs[a].next, a);
    assert k in s.queue <==> Belongs(s, out, k);
    InsertKeepsOrder(s.queue, k);
    var s' := s.(queue := Insert(s.queue, k));
    forall x ensures x in s'.queue <==> Belongs(s', out - {a}, x) {
      assert x in s.queue <==> Belongs(s, out, x);
    }
  }

  /** A retired timer need not be put back. */
  lemma LeftOut(s: State, out: set<nat>, a: nat)
    requires ConsistentBut(s, out) && !Pending(s, a)
    ensures ConsistentBut(s, out - {a})
  {
    forall x ensures x in s.queue <==> Belongs(s, out - {a}, x) {
      assert x in s.queue <==> Belongs(s, out, x);
    }
  }

  /** Only the queue, the records and nothing else matter. */
  lemma FlagsAside(s: State, t: State, out: set<nat>)
    requires ConsistentBut(s, out) && t.queue == s.queue && t.recs == s.recs
    ensures ConsistentBut(t, out)
  {
    forall x ensures x in t.queue <==> Belongs(t, out, x) {
      assert x in s.queue <==> Belongs(s, out, x);
    }
  }

  // ---- Every operation ----

  lemma AddKeeps(s: State, a: nat, ms: nat, cb: nat, recurring: bool, now: nat)
    requires Consistent(s) && a !in s.recs
    ensures Consistent(Add(s, a, ms, cb, recurring, now))
  {
    var r := Rec(recurring, ms, now + ms, Some(cb));
    RewrittenOutside(s, {}, a, r);
    var s1 := s.(recs := s.recs[a := r]);
    assert {} + {a} == {a} && {a} - {a} == {};
    PutBack(s1, {a}, a);
    FlagsAside(s1.(queue := Insert(s1.queue, Key(r.next, a))), InsertAndNotify(s1, a), {});
  }

  lemma CancelKeeps(s: State, a: nat)
    requires Consistent(s) && a in s.recs
    ensures s.recs[a].cb.Some? ==> InSet(s, a)
    ensures Consistent(Cancel(s, a).0)
  {
    HeldIfPending(s, a);
    if s.recs[a].cb.Some? {
      TakenOut(s, a);
      var s1 := Without(s, a);
      RewrittenOutside(s1, {a}, a, s.recs[a].(cb := None));
      assert {a} + {a} == {a} && {a} - {a} == {};
      LeftOut(s1.(recs := s1.recs[a := s.recs[a].(cb := None)]), {a}, a);
    }
  }

  /** A pending timer taken out, rewritten and put back. */
  lemma Requeued(s: State, a: nat, r: Rec)
    requires Consistent(s) && Pending(s, a) && r.cb.Some? && r.ms <= r.next
    ensures InSet(s, a)
    ensures Consistent(Without(s, a).(recs := s.recs[a := r], queue := Insert(Without(s, a).queue, Key(r.next, a))))
  {
    TakenOut(s, a);
    RewrittenOutside(Without(s, a), {a}, a, r);
    assert {a} + {a} == {a} && {a} - {a} == {};
    PutBack(Without(s, a).(recs := s.recs[a := r]), {a}, a);
  }

  lemma RefreshKeeps(s: State, a: nat, now: nat)
    requires Consistent(s) && a in s.recs
    ensures Consistent(Refresh(s, a, now).0)
  {
    if Pending(s, a) {
      var r := s.recs[a].(next := now + s.recs[a].ms);
      Requeued(s, a, r);
      assert Refresh(s, a, now).0
          == Without(s, a).(recs := s.recs[a := r], queue := Insert(Without(s, a).queue, Key(r.next, a)));
    }
  }

  /** refresh() and reset() as the three steps they take. */
  lemma RefreshInSteps(s: State, a: nat, now: nat, s1: State, s2: State)
    requires Consistent(s) && Pending(s, a) && InSet(s, a)
    requires s1 == Without(s, a)
    requires s2 == s1.(recs := s1.recs[a := s.recs[a].(next := now + s.recs[a].ms)])
    ensures s2.(queue := Insert(s2.queue, Key(now + s.recs[a].ms, a))) == Refresh(s, a, now).0
    ensures Refresh(s, a, now).1 && Consistent(Refresh(s, a, now).0)
  {
    RefreshKeeps(s, a, now);
  }

  /** The state with the timer rewritten, outside the set; and reset() as the steps it takes. */
  function ResetRec(r: Rec, ms: nat, fromNow: bool, now: nat): Rec
    requires r.ms <= r.next
  {
    r.(ms := ms, next := (if fromNow then now else r.next - r.ms) + ms)
  }

  lemma ResetState(s: State, a: nat, ms: nat, fromNow: bool, now: nat)
    requires a in s.recs && s.recs[a].ms <= s.recs[a].next && s.recs[a].cb.Some? && InSet(s, a)
    requires !(ms == s.recs[a].ms && !fromNow)
    ensures Reset(s, a, ms, fromNow, now)
      == (InsertAndNotify(Without(s, a).(recs := s.recs[a := ResetRec(s.recs[a], ms, fromNow, now)]), a), true)
  {
  }

  lemma NotifyAside(s: State, a: nat)
    requires a in s.recs
    ensures InsertAndNotify(s, a).recs == s.recs
    ensures InsertAndNotify(s, a).queue == Insert(s.queue, Key(s.recs[a].next, a))
  {
  }

  lemma ResetKeeps(s: State, a: nat, ms: nat, fromNow: bool, now: nat)
    requires Consistent(s) && a in s.recs
    ensures Consistent(Reset(s, a, ms, fromNow, now).0)
  {
    if Pending(s, a) && !(ms == s.recs[a].ms && !fromNow) {
      var r := ResetRec(s.recs[a], ms, fromNow, now);
      Requeued(s, a, r);
      ResetState(s, a, ms, fromNow, now);
      var s2 := Without(s, a).(recs := s.recs[a := r]);
      NotifyAside(s2, a);
      FlagsAside(s2.(queue := Insert(s2.queue, Key(r.next, a))), InsertAndNotify(s2, a), {});
    }
  }

  lemma ResetInSteps(s: State, a: nat, ms: nat, fromNow: bool, now: nat, s1: State, s2: State)
    requires Consistent(s) && Pending(s, a) && InSet(s, a) && !(ms == s.recs[a].ms && !fromNow)
    requires s1 == Without(s, a)
    requires s2 == s1.(recs := s1.recs[a := ResetRec(s.recs[a], ms, fromNow, now)])
    ensures InsertAndNotify(s2, a) == Reset(s, a, ms, fromNow, now).0
    ensures Reset(s, a, ms, fromNow, now).1 && Consistent(Reset(s, a, ms, fromNow, now).0)
  {
    ResetState(s, a, ms, fromNow, now);
    ResetKeeps(s, a, ms, fromNow, now);
  }

  // ---- The sweep ----

  ghost function AddressSet(keys: seq<Key>): (out: set<nat>)
    ensures forall a :: a in out <==> exists i :: 0 <= i < |keys| && keys[i].addr == a
  {
    set i | 0 <= i < |keys| :: keys[i].addr
  }

  /** Keys with different addresses, all of pending timers that are held out. */
  ghost predicate HeldOut(s: State, keys: seq<Key>) {
    && (forall k <- keys :: Pending(s, k.addr) && s.recs[k.addr].next == k.next)
    && (forall i, j :: 0 <= i < j < |keys| ==> keys[i].addr != keys[j].addr)
  }

  /** What a sweep makes of one timer. */
  function Swept(r: Rec, now: nat): Rec {
    if r.recurring then r.(next := now + r.ms) else r.(cb := None)
  }

  lemma RearmKeeps(s: State, out: set<nat>, a: nat, now: nat)
    requires ConsistentBut(s, out) && a in out && Pending(s, a)
    ensures ConsistentBut(Rearm(s, a, now), out - {a})
  {
    var r := Swept(s.recs[a], now);
    RewrittenOutside(s, out, a, r);
    assert out + {a} == out;
    var s1 := s.(recs := s.recs[a := r]);
    if r.recurring {
      PutBack(s1, out, a);
    } else {
      LeftOut(s1, out, a);
    }
  }

  lemma AddressSetGrows(keys: seq<Key>)
    requires keys != []
    ensures AddressSet(keys) == AddressSet(keys[..|keys| - 1]) + {keys[|keys| - 1].addr}
  {
    var n := |keys| - 1;
    forall a ensures a in AddressSet(keys) <==> a in AddressSet(keys[..n]) || a == keys[n].addr {
      if i :| 0 <= i < |keys| && keys[i].addr == a {
        assert i < n ==> keys[..n][i].addr == a;
      }
      if i :| 0 <= i < n && keys[..n][i].addr == a {
        assert keys[i].addr == a;
      }
    }
  }

  lemma HeldOutTail(s: State, keys: seq<Key>)
    requires HeldOut(s, keys) && keys != []
    ensures HeldOut(s, keys[..|keys| - 1])
    ensures Pending(s, keys[|keys| - 1].addr)
    ensures keys[|keys| - 1].addr !in AddressSet(keys[..|keys| - 1])
  {
    var init := keys[..|keys| - 1];
    forall k | k in init ensures k in keys {
    }
    assert keys[|keys| - 1] in keys;
  }

  /** Sweeping the keys of a list puts each back or retires it. */
  lemma {:induction false} RearmAllKeeps(s: State, keys: seq<Key>, now: nat, out: set<nat>)
    requires ConsistentBut(s, out) && HeldOut(s, keys) && AddressSet(keys) <= out
    ensures forall k <- keys :: k.addr in s.recs
    ensures ConsistentBut(RearmAll(s, keys, now), out - AddressSet(keys))
    decreases |keys|
  {
    if keys == [] {
      assert out - AddressSet(keys) == out;
    } else {
      var init := keys[..|keys| - 1];
      var last := keys[|keys| - 1];
      AddressSetGrows(keys);
      HeldOutTail(s, keys);
      RearmAllKeeps(s, init, now, out);
      RearmAllRecs(s, init, now);
      RearmKeeps(RearmAll(s, init, now), out - AddressSet(init), last.addr, now);
      assert out - AddressSet(init) - {last.addr} == out - AddressSet(keys);
    }
  }

  /** ... and touches no other timer. */
  lemma {:induction false} RearmAllRecs(s: State, keys: seq<Key>, now: nat)
    requires HeldOut(s, keys)
    ensures forall k <- keys :: k.addr in s.recs
    ensures forall a <- s.recs ::
      RearmAll(s, keys, now).recs[a] == if a in AddressSet(keys) then Swept(s.recs[a], now) else s.recs[a]
    decreases |keys|
  {
    if keys != [] {
      AddressSetGrows(keys);
      HeldOutTail(s, keys);
      RearmAllRecs(s, keys[..|keys| - 1], now);
    }
  }

  /** No timer stands in the set twice. */
  lemma NoneTwice(s: State)
    requires Consistent(s)
    ensures Distinct(s.queue)
  {
    forall i, j | 0 <= i < j < |s.queue| ensures s.queue[i].addr != s.queue[j].addr {
      assert s.queue[i] in s.queue && s.queue[j] in s.queue;
      assert Belongs(s, {}, s.queue[i]) && Belongs(s, {}, s.queue[j]);
      assert Less(s.queue[i], s.queue[j]);
    }
  }

  lemma DueIsPrefix(q: seq<Key>, now: nat)
    requires Sorted(q)
    ensures forall i :: 0 <= i < |q| ==> (i < DueCount(q, now) <==> q[i].next <= now)
  {
    var n := DueCount(q, now);
    forall i | n <= i < |q| ensures q[i].next > now {
      assert i > n ==> Less(q[n], q[i]);
    }
  }

  /** The number of due keys is where the first that is not due stands. */
  lemma {:induction false} DueCountIs(q: seq<Key>, now: nat, n: nat)
    requires n <= |q| && forall i :: 0 <= i < n ==> q[i].next <= now
    requires n < |q| ==> q[n].next > now
    ensures DueCount(q, now) == n
  {
    if n > 0 {
      DueCountIs(q[1..], now, n - 1);
    }
  }

  /** With the due keys cut off, their timers are held out. */
  lemma CutOff(s: State, n: nat)
    requires Consistent(s) && n <= |s.queue|
    ensures HeldOut(s, s.queue[..n])
    ensures ConsistentBut(s.(queue := s.queue[n..]), AddressSet(s.queue[..n]))
  {
    var q := s.queue;
    var due := q[..n];
    NoneTwice(s);
    forall k | k in due ensures Pending(s, k.addr) && s.recs[k.addr].next == k.next {
      assert k in q;
      assert Belongs(s, {}, k);
    }
    var s' := s.(queue := q[n..]);
    forall x ensures x in s'.queue <==> Belongs(s', AddressSet(due), x) {
      assert x in q <==> Belongs(s, {}, x);
      if x in s'.queue {
        var j :| 0 <= j < |q[n..]| && q[n..][j] == x;
        assert q[n + j] == x && x in q;
        forall i | 0 <= i < |due| ensures due[i].addr != x.addr {
          assert due[i] == q[i];
        }
      }
      if Belongs(s', AddressSet(due), x) {
        assert Belongs(s, {}, x);
        var j :| 0 <= j < |q| && q[j] == x;
        forall i | 0 <= i < n ensures q[i] != x {
          assert due[i].addr in AddressSet(due);
        }
        assert q[n..][j - n] == x;
      }
    }
  }

  lemma SweepKeeps(s: State, now: nat)
    requires Consistent(s)
    ensures forall k <- s.queue :: k.addr in s.recs
    ensures Consistent(Sweep(s, now).0)
  {
    forall k | k in s.queue ensures k.addr in s.recs {
      assert Belongs(s, {}, k);
    }
    if s.queue != [] {
      var due := Expired(s, now);
      var n: nat := |due|;
      assert due == s.queue[..n];
      CutOff(s, n);
      var s1 := s.(previous := now, queue := s.queue[n..]);
      FlagsAside(s.(queue := s.queue[n..]), s1, AddressSet(due));
      RearmAllKeeps(s1, due, now, AddressSet(due));
      assert AddressSet(due) - AddressSet(due) == {};
    }
  }

  /** The callbacks of the timers, in order. */
  ghost function Callbacks(recs: map<nat, Rec>, keys: seq<Key>): (cbs: seq<Option<nat>>)
    requires forall k <- keys :: k.addr in recs
    ensures |cbs| == |keys| && forall i :: 0 <= i < |keys| ==> keys[i].addr in recs && cbs[i] == recs[keys[i].addr].cb
    decreases |keys|
  {
    if keys == [] then []
    else
      var last := keys[|keys| - 1];
      Callbacks(recs, keys[..|keys| - 1]) + [recs[last.addr].cb]
  }

  /** The states a sweep goes through. */
  ghost predicate Chain(states: seq<State>, due: seq<Key>, now: nat) {
    && 0 < |states| <= |due| + 1
    && forall i :: 0 <= i < |states| - 1 ==>
         due[i].addr in states[i].recs && states[i + 1] == Rearm(states[i], due[i].addr, now)
  }

  /** The callbacks collected on the way. */
  ghost predicate Collected(states: seq<State>, due: seq<Key>, cbs: seq<Option<nat>>, n: nat) {
    && |cbs| == n <= |due| && n < |states|
    && forall i :: 0 <= i < n ==> due[i].addr in states[i].recs && cbs[i] == states[i].recs[due[i].addr].cb
  }

  lemma ChainGrows(states: seq<State>, due: seq<Key>, now: nat, cbs: seq<Option<nat>>,
                   s: State, cb: Option<nat>)
    requires Chain(states, due, now) && |states| <= |due| && Collected(states, due, cbs, |states| - 1)
    requires due[|states| - 1].addr in states[|states| - 1].recs
    requires s == Rearm(states[|states| - 1], due[|states| - 1].addr, now)
    requires cb == states[|states| - 1].recs[due[|states| - 1].addr].cb
    ensures Chain(states + [s], due, now) && Collected(states + [s], due, cbs + [cb], |states|)
  {
  }

  lemma ChainEnds(states: seq<State>, due: seq<Key>, now: nat, cbs: seq<Option<nat>>)
    requires Chain(states, due, now) && |states| == |due| + 1 && Distinct(due)
    requires Collected(states, due, cbs, |due|)
    ensures forall k <- due :: k.addr in states[0].recs
    ensures states[|due|] == RearmAll(states[0], due, now)
    ensures cbs == Callbacks(states[0].recs, due)
  {
    forall i | 0 <= i <= |due| ensures states[i].recs.Keys == states[0].recs.Keys {
      ChainKeys(states, due, now, i);
    }
    forall k | k in due ensures k.addr in states[0].recs {
      var i :| 0 <= i < |due| && due[i] == k;
    }
    ChainIs(states, due, now, |due|);
    assert due[..|due|] == due;
    forall i | 0 <= i < |due| ensures cbs[i] == states[0].recs[due[i].addr].cb {
      ChainIs(states, due, now, i);
      UntouchedYet(states[0], due, i, now);
    }
    assert cbs == Callbacks(states[0].recs, due);
  }

  lemma {:induction false} ChainKeys(states: seq<State>, due: seq<Key>, now: nat, n: nat)
    requires Chain(states, due, now) && n < |states|
    ensures states[n].recs.Keys == states[0].recs.Keys
  {
    if n > 0 {
      ChainKeys(states, due, now, n - 1);
      assert states[n - 1 + 1] == Rearm(states[n - 1], due[n - 1].addr, now);
    }
  }

  lemma {:induction false} ChainIs(states: seq<State>, due: seq<Key>, now: nat, n: nat)
    requires Chain(states, due, now) && n < |states| && forall k <- due :: k.addr in states[0].recs
    ensures forall k <- due[..n] :: k.addr in states[0].recs
    ensures states[n] == RearmAll(states[0], due[..n], now)
  {
    if n > 0 {
      ChainIs(states, due, now, n - 1);
      RearmAllNext(states[0], due, n - 1, now);
      assert states[n - 1 + 1] == Rearm(states[n - 1], due[n - 1].addr, now);
    }
  }

  /** One more key of a sweep. */
  lemma RearmAllNext(s: State, due: seq<Key>, n: nat, now: nat)
    requires n < |due| && forall k <- due :: k.addr in s.recs
    ensures forall k <- due[..n] :: k.addr in s.recs
    ensures forall k <- due[..n + 1] :: k.addr in s.recs
    ensures due[n].addr in s.recs
    ensures RearmAll(s, due[..n + 1], now) == Rearm(RearmAll(s, due[..n], now), due[n].addr, now)
    ensures Callbacks(s.recs, due[..n + 1]) == Callbacks(s.recs, due[..n]) + [s.recs[due[n].addr].cb]
  {
    assert due[..n + 1][..n] == due[..n];
    assert due[n] in due;
  }

  lemma UntouchedYet(s: State, due: seq<Key>, n: nat, now: nat)
    requires n < |due| && (forall k <- due :: k.addr in s.recs) && Distinct(due)
    ensures forall k <- due[..n] :: k.addr in s.recs
    ensures due[n].addr in s.recs
    ensures RearmAll(s, due[..n], now).recs[due[n].addr] == s.recs[due[n].addr]
  {
    OthersUntouched(s, due[..n], now, due[n].addr);
    assert due[n] in due;
  }

  lemma {:induction false} OthersUntouched(s: State, keys: seq<Key>, now: nat, a: nat)
    requires (forall k <- keys :: k.addr in s.recs && k.addr != a) && a in s.recs
    ensures RearmAll(s, keys, now).recs[a] == s.recs[a]
    decreases |keys|
  {
    if keys != [] {
      assert keys[|keys| - 1] in keys;
      OthersUntouched(s, keys[..|keys| - 1], now, a);
    }
  }

  lemma RearmInSteps(s: State, a: nat, now: nat)
    requires a in s.recs
    ensures s.recs[a].recurring ==> Rearm(s, a, now) == s.(
      recs := s.recs[a := s.recs[a].(next := now + s.recs[a].ms)],
      queue := Insert(s.queue, Key(now + s.recs[a].ms, a)))
    ensures !s.recs[a].recurring ==> Rearm(s, a, now) == s.(recs := s.recs[a := s.recs[a].(cb := None)])
  {
  }

  /** The keys a sweep takes out; none from an empty set. */
  ghost function DueKeys(s: State, now: nat): (due: seq<Key>)
    ensures forall k <- due :: k in s.queue
  {
    if s.queue == [] then [] else Expired(s, now)
  }

  /** listExpiredCbs as the steps it takes. */
  lemma SweepInSteps(s: State, now: nat, n: nat, cut: State)
    requires Consistent(s) && s.queue != []
    requires n == if Rollover(s.previous, now) then |s.queue| else DueCount(s.queue, now)
    requires cut == s.(previous := now, queue := s.queue[n..])
    ensures forall k <- s.queue :: k.addr in s.recs
    ensures forall k <- s.queue[..n] :: k.addr in s.recs
    ensures Sweep(s, now) == (RearmAll(cut, s.queue[..n], now), Addresses(s.queue[..n]))
    ensures Consistent(Sweep(s, now).0)
    ensures s.queue[..n] == DueKeys(s, now)
    ensures n == 0 ==> Sweep(s, now) == (s.(previous := now), []) && DueKeys(s, now) == []
  {
    SweepKeeps(s, now);
    assert s.queue[..n] == Expired(s, now);
    if n == 0 {
      assert s.queue[0..] == s.queue && s.queue[..0] == [];
    }
  }

  /** listExpiredCbs is exact: the timers it lists are the pending ones whose deadline has passed (all
      of them after a rollover), in the order of the set; each is re-armed one period from now or
      retired; no other timer changes. */
  lemma SweepIsExact(s: State, now: nat)
    requires Consistent(s)
    ensures forall k <- s.queue :: k.addr in s.recs
    ensures var (s', fired) := Sweep(s, now);
      && s'.recs.Keys == s.recs.Keys
      && (forall a <- s.recs ::
            a in fired <==> Pending(s, a) && (s.recs[a].next <= now || Rollover(s.previous, now)))
      && (forall a <- s.recs :: s'.recs[a] == if a in fired then Swept(s.recs[a], now) else s.recs[a])
  {
    SweepKeeps(s, now);
    if s.queue == [] {
      forall a | a in s.recs ensures !Pending(s, a) {
        assert Key(s.recs[a].next, a) in s.queue <==> Belongs(s, {}, Key(s.recs[a].next, a));
      }
    } else {
      var due := Expired(s, now);
      var n: nat := |due|;
      assert due == s.queue[..n];
      CutOff(s, n);
      var s1 := s.(previous := now, queue := s.queue[n..]);
      RearmAllRecs(s1, due, now);
      DueIsPrefix(s.queue, now);
      forall a | a in s.recs
        ensures a in Addresses(due) <==> Pending(s, a) && (s.recs[a].next <= now || Rollover(s.previous, now))
        ensures a in Addresses(due) <==> a in AddressSet(due)
      {
        ListedIffDue(s, now, a, due);
      }
    }
  }

  /** ... and it lists them by deadline, then address. */
  lemma SweepIsOrdered(s: State, now: nat)
    requires Consistent(s)
    ensures forall k <- s.queue :: k.addr in s.recs
    ensures var fired := Sweep(s, now).1;
      && (forall a <- fired :: a in s.recs)
      && (forall i, j :: 0 <= i < j < |fired| ==>
            || s.recs[fired[i]].next < s.recs[fired[j]].next
            || (s.recs[fired[i]].next == s.recs[fired[j]].next && fired[i] < fired[j]))
  {
    SweepKeeps(s, now);
    var fired := Sweep(s, now).1;
    forall i | 0 <= i < |fired|
      ensures s.queue[i].addr == fired[i] && fired[i] in s.recs && s.queue[i].next == s.recs[fired[i]].next
    {
      assert s.queue[i] in s.queue;
      assert Belongs(s, {}, s.queue[i]);
    }
  }

  lemma ListedIffDue(s: State, now: nat, a: nat, due: seq<Key>)
    requires Consistent(s) && a in s.recs && due == Expired(s, now)
    requires HeldOut(s, due)
    requires forall i :: 0 <= i < |s.queue| ==> (i < DueCount(s.queue, now) <==> s.queue[i].next <= now)
    ensures a in Addresses(due) <==> Pending(s, a) && (s.recs[a].next <= now || Rollover(s.previous, now))
    ensures a in Addresses(due) <==> a in AddressSet(due)
  {
    var k := Key(s.recs[a].next, a);
    assert k in s.queue <==> Belongs(s, {}, k);
    if a in AddressSet(due) {
      var i :| 0 <= i < |due| && due[i].addr == a;
      assert Addresses(due)[i] == a;
      assert due[i] in due && due[i] == s.queue[i] == k;
    }
    if a in Addresses(due) {
      var i :| 0 <= i < |due| && Addresses(due)[i] == a;
      assert due[i].addr == a;
    }
    if Pending(s, a) && (s.recs[a].next <= now || Rollover(s.previous, now)) {
      var i :| 0 <= i < |s.queue| && s.queue[i] == k;
      assert due[i].addr == a;
    }
  }

  lemma {:induction false} RearmAllFlags(s: State, keys: seq<Key>, now: nat)
    requires forall k <- keys :: k.addr in s.recs
    ensures var s' := RearmAll(s, keys, now);
      s'.previous == s.previous && s'.tickled == s.tickled && s'.notified == s.notified
    decreases |keys|
  {
    if keys != [] {
      RearmAllFlags(s, keys[..|keys| - 1], now);
    }
  }

  /** Every operation keeps the set consistent. */
  lemma ApplyKeeps(s: State, e: Event)
    requires Consistent(s) && Allowed(s, e)
    ensures Consistent(Apply(s, e))
  {
    match e.call
    case AddTimer(a, ms, cb, recurring) => AddKeeps(s, a, ms, cb, recurring, e.now);
    case CancelTimer(a) => CancelKeeps(s, a);
    case RefreshTimer(a) => RefreshKeeps(s, a, e.now);
    case ResetTimer(a, ms, fromNow) => ResetKeeps(s, a, ms, fromNow, e.now);
    case NextTimer => FlagsAside(s, Poll(s, e.now).0, {});
    case ListExpired => SweepKeeps(s, e.now);
  }
}
