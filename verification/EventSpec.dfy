/** The event table of IOManager as a value: which events each descriptor waits for, who waits, what
    the kernel's interest set holds and who was handed to a scheduler. The class in EventTable.dfy is
    proved against these functions; the lemmas in EventProofs.dfy are about them.
    The kernel is a map from descriptor to mask; `fault` says that epoll_ctl failed for a reason of its own.
 */
module EventSpec {
  import opened Options

  datatype Event = Read | Write

  /** A fiber or a callback that waits. */
  datatype Waiter = Fiber(id: nat) | Callback(id: nat)

  /** EventContext */
  datatype Context = Context(scheduler: Option<nat>, fiber: Option<nat>, cb: Option<nat>)

  const EMPTY: Context := Context(None, None, None)

  /** FdContext */
  datatype FdRec = FdRec(events: set<Event>, read: Context, write: Context)

  /** What a scheduler was given. */
  datatype Handed = Handed(scheduler: nat, who: Waiter)

  datatype State = State(fds: seq<FdRec>, kernel: map<nat, set<Event>>, pending: int, handed: seq<Handed>)

  /** Aborted: an assertion of the program failed. */
  datatype Outcome = Done | Refused | Aborted

  datatype Control = Add | Mod | Del

  /** What epoll_ctl accepts. */
  predicate Legal(kernel: map<nat, set<Event>>, op: Control, fd: nat) {
    op == Add <==> fd !in kernel
  }

  function Controlled(kernel: map<nat, set<Event>>, op: Control, fd: nat, mask: set<Event>): map<nat, set<Event>> {
    if op == Del then kernel - {fd} else kernel[fd := mask]
  }

  function GetContext(f: FdRec, e: Event): Context {
    if e == Read then f.read else f.write
  }

  function SetContext(f: FdRec, e: Event, c: Context): FdRec {
    if e == Read then f.(read := c) else f.(write := c)
  }

  // ---- The table ----

  function Blank(n: nat): (r: seq<FdRec>)
    ensures |r| == n && forall i :: 0 <= i < n ==> r[i] == FdRec({}, EMPTY, EMPTY)
  {
    if n == 0 then [] else Blank(n - 1) + [FdRec({}, EMPTY, EMPTY)]
  }

  const FIRST_SIZE: nat := 32

  function Start(): State {
    State(Blank(FIRST_SIZE), map[], 0, [])
  }

  /** vector::resize and blank contexts in the new places. */
  function Resized(fds: seq<FdRec>, n: nat): seq<FdRec> {
    if n <= |fds| then fds[..n] else fds + Blank(n - |fds|)
  }

  /** A descriptor outside the table makes it one and a half times that descriptor long. */
  function Grown(fds: seq<FdRec>, fd: nat): seq<FdRec> {
    if fd < |fds| then fds else Resized(fds, fd * 3 / 2)
  }

  /** A context holds a scheduler and exactly one of a fiber and a callback. */
  predicate Occupied(c: Context) {
    c.scheduler.Some? && (c.fiber.Some? <==> c.cb.None?)
  }

  predicate ContextOk(f: FdRec, e: Event) {
    if e in f.events then Occupied(GetContext(f, e)) else GetContext(f, e) == EMPTY
  }

  predicate RecOk(f: FdRec) {
    ContextOk(f, Read) && ContextOk(f, Write)
  }

  function CountRec(f: FdRec): nat {
    (if Read in f.events then 1 else 0) + if Write in f.events then 1 else 0
  }

  function CountAll(fds: seq<FdRec>): nat {
    if fds == [] then 0 else CountAll(fds[..|fds| - 1]) + CountRec(fds[|fds| - 1])
  }

  /** One descriptor: its contexts fit its events, and the kernel knows it by exactly those events. */
  predicate At(s: State, fd: nat) {
    && (fd in s.kernel <==> fd < |s.fds| && s.fds[fd].events != {})
    && (fd < |s.fds| ==> RecOk(s.fds[fd]))
    && (fd < |s.fds| && fd in s.kernel ==> s.kernel[fd] == s.fds[fd].events)
  }

  /** The table agrees with itself, with the kernel and with the count of pending events. */
  ghost predicate Agrees(s: State) {
    && |s.fds| >= FIRST_SIZE
    && (forall fd: nat :: At(s, fd))
    && s.pending == CountAll(s.fds)
  }

  // ---- Operations ----

  function Occupant(scheduler: nat, w: Waiter): Context {
    match w
    case Fiber(id) => Context(Some(scheduler), Some(id), None)
    case Callback(id) => Context(Some(scheduler), None, Some(id))
  }

  function AddEvent(s: State, fd: nat, e: Event, scheduler: nat, w: Waiter, fault: bool): (State, Outcome)
    requires |s.fds| >= FIRST_SIZE
  {
    var s1 := s.(fds := Grown(s.fds, fd));
    GrownHolds(s.fds, fd);
    var f := s1.fds[fd];
    if e in f.events then (s1, Aborted)
    else
      var op := if f.events != {} then Mod else Add;
      if !Legal(s.kernel, op, fd) || fault then (s1, Refused)
      else if GetContext(f, e) != EMPTY then (s1, Aborted)
      else
        var f' := SetContext(f, e, Occupant(scheduler, w)).(events := f.events + {e});
        var kernel := Controlled(s.kernel, op, fd, f'.events);
        (s1.(fds := s1.fds[fd := f'], kernel := kernel, pending := s.pending + 1), Done)
  }

  lemma GrownHolds(fds: seq<FdRec>, fd: nat)
    requires |fds| >= FIRST_SIZE
    ensures fd < |Grown(fds, fd)|
    ensures |fds| <= |Grown(fds, fd)| && Grown(fds, fd)[..|fds|] == fds
    ensures forall i :: |fds| <= i < |Grown(fds, fd)| ==> Grown(fds, fd)[i] == FdRec({}, EMPTY, EMPTY)
  {
  }

  /** The table without one event of a descriptor, whose context becomes c. */
  function Removed(s: State, fd: nat, e: Event, c: Context): State
    requires fd < |s.fds|
  {
    var f := s.fds[fd];
    s.(fds := s.fds[fd := SetContext(f, e, c).(events := f.events - {e})], pending := s.pending - 1)
  }

  function DelEvent(s: State, fd: nat, e: Event, fault: bool): (State, Outcome) {
    if fd >= |s.fds| || e !in s.fds[fd].events then (s, Refused)
    else
      var left := s.fds[fd].events - {e};
      var op := if left != {} then Mod else Del;
      if !Legal(s.kernel, op, fd) || fault then (s, Refused)
      else (Removed(s, fd, e, EMPTY).(kernel := Controlled(s.kernel, op, fd, left)), Done)
  }

  /** Whom a context holds; the callback goes first. */
  function Held(c: Context): Waiter
    requires c.fiber.Some? || c.cb.Some?
  {
    if c.cb.Some? then Callback(c.cb.value) else Fiber(c.fiber.value)
  }

  /** triggerEvent and the decrement that follows it: the waiter is swapped out of its slot. */
  function Trigger(s: State, fd: nat, e: Event): State
    requires fd < |s.fds| && Occupied(GetContext(s.fds[fd], e))
  {
    var c := GetContext(s.fds[fd], e);
    var c' := if c.cb.Some? then c.(cb := None, scheduler := None) else c.(fiber := None, scheduler := None);
    Removed(s, fd, e, c').(handed := s.handed + [Handed(c.scheduler.value, Held(c))])
  }

  function CancelEvent(s: State, fd: nat, e: Event, fault: bool): (State, Outcome)
    requires At(s, fd)
  {
    if fd >= |s.fds| || e !in s.fds[fd].events then (s, Refused)
    else
      var left := s.fds[fd].events - {e};
      var op := if left != {} then Mod else Del;
      if !Legal(s.kernel, op, fd) || fault then (s, Refused)
      else (Trigger(s.(kernel := Controlled(s.kernel, op, fd, left)), fd, e), Done)
  }

  function TriggerIf(s: State, fd: nat, e: Event, wanted: bool): (s': State)
    requires fd < |s.fds| && RecOk(s.fds[fd]) && (wanted ==> e in s.fds[fd].events)
    ensures fd < |s'.fds| && RecOk(s'.fds[fd])
    ensures s'.fds[fd].events == if wanted then s.fds[fd].events - {e} else s.fds[fd].events
  {
    if wanted then Trigger(s, fd, e) else s
  }

  function CancelAll(s: State, fd: nat, fault: bool): (State, Outcome)
    requires At(s, fd)
  {
    if fd >= |s.fds| || s.fds[fd].events == {} then (s, Refused)
    else if !Legal(s.kernel, Del, fd) || fault then (s, Refused)
    else
      var events := s.fds[fd].events;
      var s1 := TriggerIf(s.(kernel := s.kernel - {fd}), fd, Read, Read in events);
      (TriggerIf(s1, fd, Write, Write in events), Done)
  }

  /** What epoll_wait reports of a descriptor. */
  datatype Flag = In | Out | Err | Hup

  /** An error or a hangup counts as both. */
  function RealEvents(ready: set<Flag>): set<Event> {
    (if In in ready || Err in ready || Hup in ready then {Read} else {})
    + if Out in ready || Err in ready || Hup in ready then {Write} else {}
  }

  /** The part of idle() that deals with one ready descriptor. */
  function Dispatch(s: State, fd: nat, ready: set<Flag>, fault: bool): (State, Outcome)
    requires fd < |s.fds| && At(s, fd)
  {
    var actual := RealEvents(ready);
    var events := s.fds[fd].events;
    var left := events - actual;
    var op := if left != {} then Mod else Del;
    if events * actual == {} then (s, Refused)
    else if !Legal(s.kernel, op, fd) || fault then (s, Refused)
    else if !(actual <= events) then (s, Aborted)
    else
      var s1 := TriggerIf(s.(kernel := Controlled(s.kernel, op, fd, left)), fd, Read, Read in actual);
      (TriggerIf(s1, fd, Write, Write in actual), Done)
  }

  // ---- Runs ----

  datatype Call =
    | Adding(fd: nat, e: Event, scheduler: nat, w: Waiter)
    | Deleting(fd: nat, e: Event)
    | Cancelling(fd: nat, e: Event)
    | CancellingAll(fd: nat)
    | Ready(fd: nat, flags: set<Flag>)

  /** A call, and whether epoll_ctl was at fault. */
  datatype Step = Step(call: Call, fault: bool)

  ghost function Apply(s: State, t: Step): (State, Outcome)
    requires Agrees(s) && (t.call.Ready? ==> t.call.fd < |s.fds|)
  {
    assert At(s, t.call.fd);
    match t.call
    case Adding(fd, e, scheduler, w) => AddEvent(s, fd, e, scheduler, w, t.fault)
    case Deleting(fd, e) => DelEvent(s, fd, e, t.fault)
    case Cancelling(fd, e) => CancelEvent(s, fd, e, t.fault)
    case CancellingAll(fd) => CancelAll(s, fd, t.fault)
    case Ready(fd, flags) => Dispatch(s, fd, flags, t.fault)
  }
}
