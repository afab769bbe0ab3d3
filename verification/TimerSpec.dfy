/** The timer set as a value: what each operation of Timer and TimerManager does to it. The classes
    in Timers.dfy are proved against these functions; the lemmas in TimerProofs.dfy are about them.
    The clock is a step input.
 */
module TimerSpec {
  import opened Options

  /** A timer: cb is null once it has fired for good or was cancelled. */
  datatype Rec = Rec(recurring: bool, ms: nat, next: nat, cb: Option<nat>)

  /** Where a timer stands in the ordered set: its deadline, then its address. */
  datatype Key = Key(next: nat, addr: nat)

  datatype State = State(
    recs: map<nat, Rec>,
    queue: seq<Key>,      // m_timers, in order
    tickled: bool,        // m_tickled
    previous: nat,        // m_previouseTime
    notified: nat)        // calls of onTimerInsertedAtFront so far

  predicate Less(a: Key, b: Key) {
    a.next < b.next || (a.next == b.next && a.addr < b.addr)
  }

  // ---- The ordered set ----

  function LowerBound(q: seq<Key>, k: Key): (i: nat)
    ensures i <= |q|
    ensures forall j :: 0 <= j < i ==> Less(q[j], k)
    ensures i < |q| ==> !Less(q[i], k)
  {
    if q == [] || !Less(q[0], k) then 0 else 1 + LowerBound(q[1..], k)
  }

  predicate Found(q: seq<Key>, k: Key) {
    LowerBound(q, k) < |q| && !Less(k, q[LowerBound(q, k)])
  }

  function Insert(q: seq<Key>, k: Key): seq<Key> {
    if Found(q, k) then q else q[..LowerBound(q, k)] + [k] + q[LowerBound(q, k)..]
  }

  function Erase(q: seq<Key>, k: Key): seq<Key>
    requires Found(q, k)
  {
    q[..LowerBound(q, k)] + q[LowerBound(q, k) + 1..]
  }

  /** How many deadlines at the front have passed. */
  function DueCount(q: seq<Key>, now: nat): (n: nat)
    ensures n <= |q|
    ensures forall i :: 0 <= i < n ==> q[i].next <= now
    ensures n < |q| ==> q[n].next > now
  {
    if q == [] || q[0].next > now then 0 else 1 + DueCount(q[1..], now)
  }

  ghost predicate Sorted(q: seq<Key>) {
    forall i, j :: 0 <= i < j < |q| ==> Less(q[i], q[j])
  }

  ghost predicate Distinct(q: seq<Key>) {
    forall i, j :: 0 <= i < j < |q| ==> q[i].addr != q[j].addr
  }

  // ---- Operations ----

  /** TimerManager::addTimer of a timer that exists: insert it, and wake the poller if it came first
      and nobody has since the last poll. */
  function InsertAndNotify(s: State, a: nat): State
    requires a in s.recs
  {
    var k := Key(s.recs[a].next, a);
    var q := Insert(s.queue, k);
    var atFront := LowerBound(s.queue, k) == 0 && !s.tickled;
    s.(queue := q, tickled := s.tickled || atFront, notified := s.notified + if atFront then 1 else 0)
  }

  function Add(s: State, a: nat, ms: nat, cb: nat, recurring: bool, now: nat): State
    requires a !in s.recs
  {
    InsertAndNotify(s.(recs := s.recs[a := Rec(recurring, ms, now + ms, Some(cb))]), a)
  }

  /** m_timers holds the timer under its present deadline. */
  predicate InSet(s: State, a: nat)
    requires a in s.recs
  {
    Found(s.queue, Key(s.recs[a].next, a))
  }

  function Without(s: State, a: nat): State
    requires a in s.recs && InSet(s, a)
  {
    s.(queue := Erase(s.queue, Key(s.recs[a].next, a)))
  }

  /** cancel() erases what find() gives it without looking whether it found anything. */
  function Cancel(s: State, a: nat): (r: (State, bool))
    requires a in s.recs && (s.recs[a].cb.Some? ==> InSet(s, a))
  {
    if s.recs[a].cb == None then (s, false)
    else (Without(s, a).(recs := s.recs[a := s.recs[a].(cb := None)]), true)
  }

  function Refresh(s: State, a: nat, now: nat): (State, bool)
    requires a in s.recs
  {
    var r := s.recs[a];
    if r.cb == None || !InSet(s, a) then (s, false)
    else
      var s1 := Without(s, a).(recs := s.recs[a := r.(next := now + r.ms)]);
      (s1.(queue := Insert(s1.queue, Key(now + r.ms, a))), true)
  }

  function Reset(s: State, a: nat, ms: nat, fromNow: bool, now: nat): (State, bool)
    requires a in s.recs && s.recs[a].ms <= s.recs[a].next
  {
    var r := s.recs[a];
    if ms == r.ms && !fromNow then (s, true)
    else if r.cb == None || !InSet(s, a) then (s, false)
    else
      var start := if fromNow then now else r.next - r.ms;
      var s1 := Without(s, a).(recs := s.recs[a := r.(ms := ms, next := start + ms)]);
      (InsertAndNotify(s1, a), true)
  }

  /** getTimeOfNextTimer: None is "no timer". */
  function Poll(s: State, now: nat): (State, Option<nat>) {
    if s.queue == [] then (s, None)
    else (s.(tickled := false), Some(if now >= s.queue[0].next then 0 else s.queue[0].next - now))
  }

  const HOUR: nat := 60 * 60 * 1000
  const TWO64: nat := 0x1_0000_0000_0000_0000

  /** detectClockRollover: the subtraction is unsigned. */
  predicate Rollover(previous: nat, now: nat) {
    now < previous && now < (previous - HOUR) % TWO64
  }

  /** What becomes of one timer taken out by a sweep. */
  function Rearm(s: State, a: nat, now: nat): State
    requires a in s.recs
  {
    var r := s.recs[a];
    if r.recurring then
      s.(recs := s.recs[a := r.(next := now + r.ms)], queue := Insert(s.queue, Key(now + r.ms, a)))
    else
      s.(recs := s.recs[a := r.(cb := None)])
  }

  function RearmAll(s: State, expired: seq<Key>, now: nat): (s': State)
    requires forall k <- expired :: k.addr in s.recs
    ensures s'.recs.Keys == s.recs.Keys
    decreases |expired|
  {
    if expired == [] then s
    else
      var last := expired[|expired| - 1];
      Rearm(RearmAll(s, expired[..|expired| - 1], now), last.addr, now)
  }

  function Expired(s: State, now: nat): seq<Key> {
    if Rollover(s.previous, now) then s.queue else s.queue[..DueCount(s.queue, now)]
  }

  /** listExpiredCbs, as the timers swept and what is left. */
  function Sweep(s: State, now: nat): (State, seq<nat>)
    requires forall k <- s.queue :: k.addr in s.recs
  {
    if s.queue == [] then (s, [])
    else
      var due := Expired(s, now);
      (RearmAll(s.(previous := now, queue := s.queue[|due|..]), due, now), Addresses(due))
  }

  function Addresses(keys: seq<Key>): (s: seq<nat>)
    ensures |s| == |keys| && forall i :: 0 <= i < |keys| ==> s[i] == keys[i].addr
  {
    if keys == [] then [] else Addresses(keys[..|keys| - 1]) + [keys[|keys| - 1].addr]
  }

  // ---- What every operation keeps ----

  ghost predicate Pending(s: State, a: nat) {
    a in s.recs && s.recs[a].cb.Some?
  }

  /** The key belongs in the set: it is the present deadline of a pending timer that is not held out. */
  ghost predicate Belongs(s: State, out: set<nat>, k: Key) {
    Pending(s, k.addr) && k.addr !in out && s.recs[k.addr].next == k.next
  }

  /** The set is ordered and holds exactly the timers with a callback, under their present deadlines,
      except those in `out`, which an operation has taken out for the moment. */
  ghost predicate ConsistentBut(s: State, out: set<nat>) {
    && Sorted(s.queue)
    && (forall k :: k in s.queue <==> Belongs(s, out, k))
    && (forall a <- s.recs :: s.recs[a].ms <= s.recs[a].next)
  }

  ghost predicate Consistent(s: State) {
    ConsistentBut(s, {})
  }

  // ---- Runs ----

  datatype Call =
    | AddTimer(a: nat, ms: nat, cb: nat, recurring: bool)
    | CancelTimer(a: nat)
    | RefreshTimer(a: nat)
    | ResetTimer(a: nat, newMs: nat, fromNow: bool)
    | NextTimer
    | ListExpired

  /** A call and what the clock said. */
  datatype Event = Event(call: Call, now: nat)

  predicate Allowed(s: State, e: Event) {
    match e.call
    case AddTimer(a, _, _, _) => a !in s.recs
    case CancelTimer(a) => a in s.recs
    case RefreshTimer(a) => a in s.recs
    case ResetTimer(a, _, _) => a in s.recs
    case NextTimer => true
    case ListExpired => true
  }

  ghost function Apply(s: State, e: Event): State
    requires Consistent(s) && Allowed(s, e)
  {
    match e.call
    case AddTimer(a, ms, cb, recurring) => Add(s, a, ms, cb, recurring, e.now)
    case CancelTimer(a) => HeldIfPending(s, a); Cancel(s, a).0
    case RefreshTimer(a) => Refresh(s, a, e.now).0
    case ResetTimer(a, ms, fromNow) => Reset(s, a, ms, fromNow, e.now).0
    case NextTimer => Poll(s, e.now).0
    case ListExpired => assert forall k <- s.queue :: Belongs(s, {}, k); Sweep(s, e.now).0
  }

  lemma FoundIffMember(q: seq<Key>, k: Key)
    requires Sorted(q)
    ensures Found(q, k) <==> k in q
  {
    var i := LowerBound(q, k);
    if k in q {
      var j :| 0 <= j < |q| && q[j] == k;
      assert i <= j;
    }
  }

  lemma HeldIfPending(s: State, a: nat)
    requires Consistent(s)
    ensures a in s.recs ==> (s.recs[a].cb.Some? <==> InSet(s, a))
  {
    if a in s.recs {
      var k := Key(s.recs[a].next, a);
      FoundIffMember(s.queue, k);
      assert k in s.queue <==> Belongs(s, {}, k);
    }
  }
}
