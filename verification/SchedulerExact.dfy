/** The careful discipline is exact: an assertion of Fiber can fire if and only if a careful run meets a
    scan that is not careful. From there on the workers alone, without anything new being scheduled, can
    bring the failure about.
 */
module SchedulerExact {
  import opened Options
  import opened Scheduler
  import opened SchedulerLegality

  /** Nothing is scheduled but what run() itself puts back. */
  predicate Quiet(a: Action) {
    !a.Outside? && !a.Push?
  }

  ghost predicate QuietRun(s: State, actions: seq<Action>, s': State) {
    Run(s, actions, s') && forall a <- actions :: Quiet(a)
  }

  /** The workers alone can make an assertion fire. */
  ghost predicate Doomed(s: State) {
    exists actions, s' :: QuietRun(s, actions, s') && s'.aborted
  }

  lemma AbortedIsDoomed(s: State)
    requires s.aborted
    ensures Doomed(s)
  {
    assert QuietRun(s, [], s);
  }

  lemma StepToDoom(s: State, a: Action)
    requires Enabled(s, a) && Quiet(a) && Doomed(Step(s, a))
    ensures Doomed(s)
  {
    var actions, s' :| QuietRun(Step(s, a), actions, s') && s'.aborted;
    assert ([a] + actions)[1..] == actions;
    assert QuietRun(s, [a] + actions, s');
  }

  // ---- A worker's turn ----

  /** w has done with one thing; the other workers and fiber f are as they were. */
  ghost predicate Undisturbed(s: State, s': State, w: nat, f: nat) {
    && !s'.aborted && w < |s.workers| == |s'.workers|
    && (forall v :: 0 <= v < |s.workers| && v != w ==> s'.workers[v] == s.workers[v])
    && s'.Of(f) == s.Of(f) && s.nextFiber <= s'.nextFiber
  }

  /** Back from a fiber that threw, w is soon at its loop head again. */
  lemma BackEnds(s: State, w: nat, f: nat) returns (s': State)
    requires !s.aborted && w < |s.workers| && s.workers[w].pc.Back? && s.workers[w].pc.fiber != f
    requires Dead(s.Of(s.workers[w].pc.fiber))
    ensures Undisturbed(s, s', w, f) && s'.workers[w].pc == Scanning && s'.queue == s.queue
    ensures Doomed(s') ==> Doomed(s)
  {
    var s1 := Step(s, Book(w));
    s' := Step(s1, Settle(w));
    if Doomed(s') {
      StepToDoom(s1, Settle(w));
      StepToDoom(s, Book(w));
    }
  }

  /** The fiber w runs throws, and w is at its loop head again. */
  lemma RunEnds(s: State, w: nat, f: nat) returns (s': State)
    requires !s.aborted && w < |s.workers| && s.workers[w].pc.Running? && s.workers[w].pc.fiber != f
    ensures Undisturbed(s, s', w, f) && s'.workers[w].pc == Scanning && s'.queue == s.queue
    ensures Doomed(s') ==> Doomed(s)
  {
    var s1 := Step(s, Yield(w, Except));
    s' := BackEnds(s1, w, f);
    if Doomed(s1) {
      StepToDoom(s, Yield(w, Except));
    }
  }

  /** w has taken a fiber other than f: it finishes with it. */
  lemma TakenEnds(s: State, w: nat, f: nat, g: nat) returns (s': State)
    requires !s.aborted && w < |s.workers| && s.workers[w].pc == Taken(FiberWork(g)) && g != f && s.Of(g) != Exec
    ensures Undisturbed(s, s', w, f) && s'.workers[w].pc == Scanning && s'.queue == s.queue
    ensures Doomed(s') ==> Doomed(s)
  {
    var s1 := Step(s, Begin(w));
    if Dead(s.Of(g)) {
      s' := Step(s1, Book(w));
      if Doomed(s') {
        StepToDoom(s1, Book(w));
      }
    } else {
      s' := RunEnds(s1, w, f);
    }
    if Doomed(s1) {
      StepToDoom(s, Begin(w));
    }
  }

  /** w takes up and finishes an entry of another fiber, or a callback. */
  lemma FiberTurn(s: State, w: nat, k: nat, f: nat, g: nat) returns (s': State)
    requires !s.aborted && w < |s.workers| && s.workers[w].pc == Scanning && g != f
    requires FirstRunnable(s, w, 0) == Some(k) && s.queue[k].work == FiberWork(g)
    ensures Undisturbed(s, s', w, f) && s'.workers[w].pc == Scanning
    ensures s'.queue == s.queue[..k] + s.queue[k + 1..]
    ensures Doomed(s') ==> Doomed(s)
  {
    var s1 := Step(s, Scan(w));
    s' := TakenEnds(s1, w, f, g);
    if Doomed(s1) {
      StepToDoom(s, Scan(w));
    }
  }

  lemma CallbackTurn(s: State, w: nat, k: nat, f: nat) returns (s': State)
    requires !s.aborted && w < |s.workers| && s.workers[w].pc == Scanning
    requires s.Of(f) == Ready && f < s.nextFiber
    requires FirstRunnable(s, w, 0) == Some(k) && s.queue[k].work.Callback?
    ensures Doomed(s) || (
      && Undisturbed(s, s', w, f) && s'.workers[w].pc == Scanning
      && s'.queue == s.queue[..k] + s.queue[k + 1..]
      && (Doomed(s') ==> Doomed(s)))
  {
    var s1 := Step(s, Scan(w));
    var s2 := Step(s1, Begin(w));
    if s2.aborted {
      AbortedIsDoomed(s2);
      s' := s;
    } else {
      s' := RunEnds(s2, w, f);
    }
    if Doomed(s2) {
      StepToDoom(s1, Begin(w));
      StepToDoom(s, Scan(w));
    }
  }

  // ---- Two entries of one fiber ----

  function EntryOf(f: nat): Entry {
    Entry(FiberWork(f), None)
  }

  /** An entry of a fiber that yielded READY is runnable for everyone. */
  lemma Runnable(s: State, w: nat, f: nat)
    requires EntryOf(f) in s.queue && s.Of(f) == Ready
    ensures FirstRunnable(s, w, 0).Some?
  {
    var i :| 0 <= i < |s.queue| && s.queue[i] == EntryOf(f);
    assert !Skipped(s, s.queue[i], w);
  }

  lemma Removed(q: seq<Entry>, k: nat, e: Entry)
    requires k < |q|
    ensures multiset(q[..k] + q[k + 1..])[e] == multiset(q)[e] - if q[k] == e then 1 else 0
  {
    assert q == q[..k] + [q[k]] + q[k + 1..];
  }

  /** Worker u holds the fiber just taken and v finds a second entry of it: u swaps it in, and so does v. */
  lemma SecondTaker(s: State, u: nat, v: nat, f: nat)
    requires !s.aborted && u < |s.workers| && v < |s.workers| && u != v
    requires s.workers[u].pc == Taken(FiberWork(f)) && s.workers[v].pc == Scanning
    requires s.Of(f) == Ready && f < s.nextFiber && multiset(s.queue)[EntryOf(f)] >= 1
    ensures Doomed(s)
    decreases |s.queue|
  {
    assert EntryOf(f) in multiset(s.queue);
    Runnable(s, v, f);
    var k := FirstRunnable(s, v, 0).value;
    Removed(s.queue, k, EntryOf(f));
    match s.queue[k].work
    case FiberWork(g) =>
      if g == f {
        BothBegin(Step(s, Scan(v)), u, v, f);
        StepToDoom(s, Scan(v));
      } else {
        var s' := FiberTurn(s, v, k, f, g);
        SecondTaker(s', u, v, f);
      }
    case Callback(_) =>
      var s' := CallbackTurn(s, v, k, f);
      if !Doomed(s) {
        SecondTaker(s', u, v, f);
      }
  }

  /** Two workers took a fiber that has not ended: the second to swap it in trips the assertion. */
  lemma BothBegin(s: State, u: nat, v: nat, f: nat)
    requires !s.aborted && u < |s.workers| && v < |s.workers| && u != v
    requires s.workers[u].pc == Taken(FiberWork(f)) && !Dead(s.Of(f)) && s.Of(f) != Exec
    requires s.workers[v].pc == Taken(FiberWork(f)) || (Calling(s.workers[v]) && s.workers[v].cbFiber == Some(f))
    ensures Doomed(s)
  {
    var s1 := Step(s, Begin(u));
    assert s1.Of(f) == Exec && s1.workers[v] == s.workers[v];
    AbortedIsDoomed(Step(s1, Begin(v)));
    StepToDoom(s1, Begin(v));
    StepToDoom(s, Begin(u));
  }

  /** Two entries in the queue and two workers at their loop heads. */
  lemma TwoEntries(s: State, u: nat, v: nat, f: nat)
    requires !s.aborted && u < |s.workers| && v < |s.workers| && u != v
    requires s.workers[u].pc == Scanning && s.workers[v].pc == Scanning
    requires s.Of(f) == Ready && f < s.nextFiber && multiset(s.queue)[EntryOf(f)] >= 2
    ensures Doomed(s)
    decreases |s.queue|
  {
    assert EntryOf(f) in multiset(s.queue);
    Runnable(s, u, f);
    var k := FirstRunnable(s, u, 0).value;
    Removed(s.queue, k, EntryOf(f));
    match s.queue[k].work
    case FiberWork(g) =>
      if g == f {
        SecondTaker(Step(s, Scan(u)), u, v, f);
        StepToDoom(s, Scan(u));
      } else {
        var s' := FiberTurn(s, u, k, f, g);
        TwoEntries(s', u, v, f);
      }
    case Callback(_) =>
      var s' := CallbackTurn(s, u, k, f);
      if !Doomed(s) {
        TwoEntries(s', u, v, f);
      }
  }

  /** A worker back from a fiber that another has made READY in the meantime puts it back all the same. */
  lemma PutsBack(s: State, v: nat, f: nat) returns (s': State)
    requires !s.aborted && v < |s.workers| && s.Of(f) == Ready
    requires (s.workers[v].pc.Back? || s.workers[v].pc.Booked?) && s.workers[v].pc.fiber == f
    ensures Undisturbed(s, s', v, f) && s'.workers[v].pc == Scanning && s'.queue == s.queue + [EntryOf(f)]
    ensures Doomed(s') ==> Doomed(s)
  {
    var s1 := if s.workers[v].pc.Back? then Step(s, Book(v)) else s;
    s' := Step(s1, Settle(v));
    if Doomed(s') {
      StepToDoom(s1, Settle(v));
      if s.workers[v].pc.Back? {
        StepToDoom(s, Book(v));
      }
    }
  }

  /** u runs a fiber that v is back from but has not looked at: both put it back. */
  lemma BothPutBack(s: State, u: nat, v: nat, f: nat)
    requires !s.aborted && u < |s.workers| && v < |s.workers| && u != v && f < s.nextFiber
    requires s.workers[u].pc.Running? && s.workers[u].pc.fiber == f && s.workers[u].pc.body
    requires (s.workers[v].pc.Back? || s.workers[v].pc.Booked?) && s.workers[v].pc.fiber == f
    ensures Doomed(s)
  {
    var s1 := Step(s, Yield(u, Ready));
    if s1.aborted {
      AbortedIsDoomed(s1);
    } else {
      var s2 := PutsBack(s1, v, f);
      var s3 := PutsBack(s2, u, f);
      assert s3.queue == s.queue + [EntryOf(f)] + [EntryOf(f)];
      TwoEntries(s3, u, v, f);
    }
    StepToDoom(s, Yield(u, Ready));
  }

  /** What is more, the one that is back makes the fiber HOLD while it runs, and so trips the assertion of
      its next yield. */
  lemma HoldTripsYield(s: State, u: nat, v: nat, f: nat, out: FiberState)
    requires !s.aborted && u < |s.workers| && v < |s.workers| && u != v && s.Of(f) == Exec
    requires s.workers[u].pc.Running? && s.workers[u].pc.fiber == f && s.workers[u].pc.body
    requires s.workers[v].pc.Booked? && s.workers[v].pc.fiber == f
    requires out == Hold || out == Ready
    ensures var s1 := Step(s, Settle(v));
      !s1.aborted && s1.Of(f) == Hold && Enabled(s1, Yield(u, out)) && Step(s1, Yield(u, out)).aborted
  {
    var s1 := Step(s, Settle(v));
    assert s1.workers[u] == s.workers[u];
  }

  // ---- Every careless scan ----

  /** An entry of a fiber that has not ended, which another worker uses. */
  lemma LiveTaken(s: State, w: nat, k: nat, v: nat, f: nat)
    requires Legal(s) && Enabled(s, Scan(w)) && FirstRunnable(s, w, 0) == Some(k)
    requires s.queue[k].work == FiberWork(f) && !Dead(s.Of(f))
    requires v < |s.workers| && v != w && Uses(s.workers[v], f)
    ensures Doomed(s)
  {
    assert AtOk(s, v) && KnownOk(s, v, f);
    assert !Skipped(s, s.queue[k], w);
    var s1 := Step(s, Scan(w));
    if s.workers[v].pc.Back? || s.workers[v].pc.Booked? {
      BothPutBack(Step(s1, Begin(w)), w, v, f);
      StepToDoom(s1, Begin(w));
    } else {
      BothBegin(s1, w, v, f);
    }
    StepToDoom(s, Scan(w));
  }

  /** An entry of a fiber that has ended, which v is about to reset for a callback. */
  lemma ResetUnderway(s: State, w: nat, k: nat, v: nat, f: nat)
    requires Legal(s) && Enabled(s, Scan(w)) && FirstRunnable(s, w, 0) == Some(k)
    requires s.queue[k].work == FiberWork(f) && Dead(s.Of(f))
    requires v < |s.workers| && v != w && Calling(s.workers[v]) && s.workers[v].cbFiber == Some(f)
    ensures Doomed(s)
  {
    var s1 := Step(s, Scan(w));
    var s2 := Step(s1, Begin(v));
    assert s2.Of(f) == Exec && s2.workers[w].pc == Taken(FiberWork(f));
    AbortedIsDoomed(Step(s2, Begin(w)));
    StepToDoom(s2, Begin(w));
    StepToDoom(s1, Begin(v));
    StepToDoom(s, Scan(w));
  }

  /** The owner of a fiber that has ended makes it a fresh one. */
  lemma OwnerResets(s: State, v: nat, f: nat) returns (s': State)
    requires !s.aborted && v < |s.workers| && Owner(s.workers[v], f) && Dead(s.Of(f))
    ensures !s'.aborted && |s'.workers| == |s.workers| && s'.Of(f) == Blank
    ensures forall u :: 0 <= u < |s.workers| && u != v ==> s'.workers[u] == s.workers[u]
    ensures Doomed(s') ==> Doomed(s)
  {
    var s1 := if s.workers[v].pc.Back? then Step(s, Book(v)) else s;
    s' := Step(s1, Settle(v));
    if Doomed(s') {
      StepToDoom(s1, Settle(v));
      if s.workers[v].pc.Back? {
        StepToDoom(s, Book(v));
      }
    }
  }

  /** A second worker waits for a fiber that has ended but that its owner will reset. */
  lemma TwoWaiting(s: State, w: nat, k: nat, u: nat, v: nat, f: nat)
    requires Legal(s) && Enabled(s, Scan(w)) && FirstRunnable(s, w, 0) == Some(k)
    requires s.queue[k].work == FiberWork(f) && Dead(s.Of(f))
    requires u < |s.workers| && v < |s.workers| && u != w && v != w
    requires TookFiber(s.workers[u], f) && Owner(s.workers[v], f)
    ensures Doomed(s)
  {
    var s1 := Step(s, Scan(w));
    var s2 := OwnerResets(s1, v, f);
    BothBegin(s2, w, u, f);
    StepToDoom(s, Scan(w));
  }

  /** w is about to reset its cb_fiber, which cannot be reset. */
  lemma ResetAborts(s: State, w: nat)
    requires !s.aborted && w < |s.workers| && Calling(s.workers[w])
    requires s.workers[w].cbFiber.Some? && !Resettable(s.Of(s.workers[w].cbFiber.value))
    ensures Doomed(s)
  {
    AbortedIsDoomed(Step(s, Begin(w)));
    StepToDoom(s, Begin(w));
  }

  /** ... or which another worker uses. */
  lemma ResetOfUsed(s: State, w: nat, v: nat, g: nat)
    requires !s.aborted && w < |s.workers| && v < |s.workers| && v != w && g < s.nextFiber
    requires Calling(s.workers[w]) && s.workers[w].cbFiber == Some(g) && Resettable(s.Of(g))
    requires TookFiber(s.workers[v], g)
      || ((s.workers[v].pc.Back? || s.workers[v].pc.Booked?) && s.workers[v].pc.fiber == g)
    ensures Doomed(s)
  {
    var s1 := Step(s, Begin(w));
    assert s1.Of(g) == Exec && s1.workers[v] == s.workers[v];
    if TookFiber(s.workers[v], g) {
      AbortedIsDoomed(Step(s1, Begin(v)));
      StepToDoom(s1, Begin(v));
    } else {
      BothPutBack(s1, w, v, g);
    }
    StepToDoom(s, Begin(w));
  }

  /** A callback for a worker whose cb_fiber cannot be reset, or is used by another. */
  lemma CallbackTaken(s: State, w: nat, k: nat)
    requires Legal(s) && Enabled(s, Scan(w)) && FirstRunnable(s, w, 0) == Some(k)
    requires s.queue[k].work.Callback? && !MayCall(s, w)
    ensures Doomed(s)
  {
    var g := s.workers[w].cbFiber.value;
    if !Resettable(s.Of(g)) {
      ResetAborts(Step(s, Scan(w)), w);
    } else {
      var v: nat :| v < |s.workers| && v != w && Uses(s.workers[v], g);
      assert AtOk(s, v) && KnownOk(s, v, g) && CbFibersOk(s, w, v);
      ResetOfUsed(Step(s, Scan(w)), w, v, g);
    }
    StepToDoom(s, Scan(w));
  }

  /** After a scan that is not careful the workers alone can make an assertion fire. */
  lemma CarelessAborts(s: State, w: nat)
    requires Legal(s) && Enabled(s, Scan(w)) && !CarefulScan(s, w)
    ensures Doomed(s)
  {
    var k := FirstRunnable(s, w, 0).value;
    match s.queue[k].work
    case Callback(_) => CallbackTaken(s, w, k);
    case FiberWork(f) =>
      if v: nat :| v < |s.workers| && v != w && Uses(s.workers[v], f) && !(Dead(s.Of(f)) && !Calling(s.workers[v])) {
        if Dead(s.Of(f)) {
          ResetUnderway(s, w, k, v, f);
        } else {
          LiveTaken(s, w, k, v, f);
        }
      } else {
        var u: nat, v: nat :| u < |s.workers| && v < |s.workers| && u != w && v != w
          && TookFiber(s.workers[u], f) && Owner(s.workers[v], f);
        assert Uses(s.workers[v], f);
        TwoWaiting(s, w, k, u, v, f);
      }
  }

  // ---- If and only if ----

  /** What the surroundings allow to be scheduled; the workers' own steps are always allowed. */
  type Policy = (State, Action) -> bool

  ghost predicate Permits(allow: Policy) {
    forall s: State, a: Action :: Quiet(a) ==> allow(s, a)
  }

  ghost predicate RunIn(allow: Policy, s: State, actions: seq<Action>, s': State)
    decreases |actions|
  {
    if actions == [] then s == s'
    else Enabled(s, actions[0]) && allow(s, actions[0]) && RunIn(allow, Step(s, actions[0]), actions[1..], s')
  }

  ghost predicate CarefulRunIn(allow: Policy, s: State, actions: seq<Action>, s': State)
    decreases |actions|
  {
    if actions == [] then s == s'
    else
      Enabled(s, actions[0]) && allow(s, actions[0]) && Careful(s, actions[0])
      && CarefulRunIn(allow, Step(s, actions[0]), actions[1..], s')
  }

  ghost predicate CanAbort(allow: Policy, s: State) {
    exists actions, s' :: RunIn(allow, s, actions, s') && s'.aborted
  }

  ghost predicate MeetsCarelessScan(allow: Policy, s: State) {
    exists actions, m, w :: CarefulRunIn(allow, s, actions, m) && Enabled(m, Scan(w)) && !CarefulScan(m, w)
  }

  /** Careful runs keep everything legal: no assertion has fired. */
  lemma {:induction false} CarefulRunsAreLegal(allow: Policy, s: State, actions: seq<Action>, s': State)
    requires Legal(s) && CarefulRunIn(allow, s, actions, s')
    ensures Legal(s')
    decreases |actions|
  {
    if actions != [] {
      StepKeeps(s, actions[0]);
      CarefulRunsAreLegal(allow, Step(s, actions[0]), actions[1..], s');
    }
  }

  /** A run in which an assertion fires has a first scan that is not careful. */
  lemma {:induction false} FirstCareless(allow: Policy, s: State, actions: seq<Action>, s': State)
    requires Legal(s) && RunIn(allow, s, actions, s') && s'.aborted
    ensures MeetsCarelessScan(allow, s)
    decreases |actions|
  {
    var a := actions[0];
    if Careful(s, a) {
      StepKeeps(s, a);
      FirstCareless(allow, Step(s, a), actions[1..], s');
      var more, m, w :| CarefulRunIn(allow, Step(s, a), more, m) && Enabled(m, Scan(w)) && !CarefulScan(m, w);
      assert ([a] + more)[1..] == more;
      assert CarefulRunIn(allow, s, [a] + more, m);
    } else {
      assert CarefulRunIn(allow, s, [], s);
    }
  }

  lemma {:induction false} QuietIsAllowed(allow: Policy, s: State, actions: seq<Action>, s': State)
    requires Permits(allow) && QuietRun(s, actions, s')
    ensures RunIn(allow, s, actions, s')
    decreases |actions|
  {
    if actions != [] {
      assert Quiet(actions[0]);
      QuietIsAllowed(allow, Step(s, actions[0]), actions[1..], s');
    }
  }

  /** A careful run can be gone on from. */
  lemma {:induction false} Joined(allow: Policy, s: State, actions: seq<Action>, m: State, more: seq<Action>, s': State)
    requires CarefulRunIn(allow, s, actions, m) && RunIn(allow, m, more, s')
    ensures RunIn(allow, s, actions + more, s')
    decreases |actions|
  {
    if actions == [] {
      assert actions + more == more;
    } else {
      Joined(allow, Step(s, actions[0]), actions[1..], m, more, s');
      assert (actions + more)[1..] == actions[1..] + more;
    }
  }

  /** Whatever may be scheduled: an assertion can fire if and only if a careful run meets a scan that is
      not careful. */
  lemma AssertionFiresIff(allow: Policy, s: State)
    requires Permits(allow) && Initial(s)
    ensures CanAbort(allow, s) <==> MeetsCarelessScan(allow, s)
  {
    InitialLegal(s);
    if CanAbort(allow, s) {
      var actions, s' :| RunIn(allow, s, actions, s') && s'.aborted;
      FirstCareless(allow, s, actions, s');
    }
    if MeetsCarelessScan(allow, s) {
      var actions, m, w :| CarefulRunIn(allow, s, actions, m) && Enabled(m, Scan(w)) && !CarefulScan(m, w);
      CarefulRunsAreLegal(allow, s, actions, m);
      CarelessAborts(m, w);
      var more, s' :| QuietRun(m, more, s') && s'.aborted;
      QuietIsAllowed(allow, m, more, s');
      Joined(allow, s, actions, m, more, s');
    }
  }
}
