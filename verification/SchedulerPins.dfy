/** Tasks pinned to a thread: only that thread's worker ever takes them, and it does take them. */
module SchedulerPins {
  import opened Options
  import opened Scheduler
  import opened SchedulerExact

  /** A step that is no scan leaves the queue alone or puts one entry behind it. */
  lemma QueueAfter(s: State, a: Action)
    requires Enabled(s, a) && !a.Scan?
    ensures var q := Step(s, a).queue; q == s.queue || (|q| == |s.queue| + 1 && q[..|s.queue|] == s.queue)
  {
  }

  lemma Appended(q: seq<Entry>, q': seq<Entry>, e: Entry)
    requires |q'| == |q| + 1 && q'[..|q|] == q
    ensures multiset(q)[e] <= multiset(q')[e]
  {
    assert q' == q + [q'[|q|]];
  }

  /** No step but v's own scan takes what is pinned to v. */
  lemma PinnedStep(s: State, a: Action, v: nat, e: Entry)
    requires Enabled(s, a) && a != Scan(v) && e.pin == Some(v)
    ensures multiset(s.queue)[e] <= multiset(Step(s, a).queue)[e]
  {
    if a.Scan? {
      if FirstRunnable(s, a.w, 0).Some? {
        Removed(s.queue, FirstRunnable(s, a.w, 0).value, e);
      }
    } else {
      QueueAfter(s, a);
      if Step(s, a).queue != s.queue {
        Appended(s.queue, Step(s, a).queue, e);
      }
    }
  }

  /** Over every run: as long as worker v does not scan, every entry pinned to it stays queued; only v
      itself ever takes one. */
  lemma {:induction false} PinnedWaits(s: State, actions: seq<Action>, s': State, v: nat, e: Entry)
    requires Run(s, actions, s') && Scan(v) !in actions && e.pin == Some(v)
    ensures multiset(s.queue)[e] <= multiset(s'.queue)[e]
    decreases |actions|
  {
    if actions != [] {
      PinnedStep(s, actions[0], v, e);
      PinnedWaits(Step(s, actions[0]), actions[1..], s', v, e);
    }
  }

  /** A scan of v takes an entry exactly when there is one for v or for anybody that is not of a running
      fiber: the first such, and that one only. */
  lemma ScanTakesFirst(s: State, v: nat)
    requires Enabled(s, Scan(v))
    ensures var s' := Step(s, Scan(v));
      if exists i :: IsFirst(s, v, i) then
        exists i :: IsFirst(s, v, i)
          && s'.queue == s.queue[..i] + s.queue[i + 1..] && s'.workers[v].pc == Taken(s.queue[i].work)
      else s'.queue == s.queue && s'.workers[v].pc == Nothing
  {
    match FirstRunnable(s, v, 0)
    case Some(i) => assert IsFirst(s, v, i);
    case None =>
      forall i ensures !IsFirst(s, v, i) {
        assert 0 <= i < |s.queue| ==> Skipped(s, s.queue[i], v);
      }
  }

  predicate MayRun(s: State, v: nat, e: Entry) {
    (e.pin == None || e.pin == Some(v)) && (e.work.FiberWork? ==> s.Of(e.work.fiber) != Exec)
  }

  predicate IsFirst(s: State, v: nat, i: int) {
    0 <= i < |s.queue| && MayRun(s, v, s.queue[i]) && forall j :: 0 <= j < i ==> !MayRun(s, v, s.queue[j])
  }
}
