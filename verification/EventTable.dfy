/** The event table in the form IOManager has it: a vector of context objects that the operations
    rewrite in place. Every method is proved to do to the fields what EventSpec says it does to the value.
    The calling fiber or callback, its scheduler and what epoll_ctl does of its own are arguments.
 */
module EventTable {
  import opened Options
  import opened EventSpec
  import EventProofs

  class FdContext {
    const fd: nat
    var events: set<Event>
    var read: Context
    var write: Context

    constructor (fd: nat)
      ensures this.fd == fd && Value() == FdRec({}, EMPTY, EMPTY)
    {
      this.fd := fd;
      events := {};
      read := EMPTY;
      write := EMPTY;
    }

    ghost function Value(): FdRec
      reads this
    {
      FdRec(events, read, write)
    }

    function Get(e: Event): (c: Context)
      reads this
      ensures c == GetContext(Value(), e)
    {
      match e
      case Read => read
      case Write => write
    }

    method Set(e: Event, c: Context)
      modifies this
      ensures Value() == SetContext(old(Value()), e, c)
    {
      match e
      case Read => read := c;
      case Write => write := c;
    }

    /** triggerEvent: the waiter is swapped out of its slot and given to its scheduler. */
    method Trigger(e: Event) returns (ok: bool, h: Handed)
      requires ContextOk(Value(), e)
      modifies this
      ensures ok <==> old(e in events)
      ensures !ok ==> Value() == old(Value())
      ensures ok ==> Value() == SetContext(old(Value()), e, EMPTY).(events := old(events) - {e})
      ensures ok ==> h == Handed(old(Get(e)).scheduler.value, Held(old(Get(e))))
    {
      h := Handed(0, Fiber(0));
      if e !in events {
        return false, h;
      }
      events := events - {e};
      var c := Get(e);
      if c.cb.Some? {
        h := Handed(c.scheduler.value, Callback(c.cb.value));
        Set(e, c.(cb := None));
      } else {
        h := Handed(c.scheduler.value, Fiber(c.fiber.value));
        Set(e, c.(fiber := None));
      }
      Set(e, Get(e).(scheduler := None));
      return true, h;
    }
  }

  class IOManager {
    var fdContexts: seq<FdContext>
    var kernel: map<nat, set<Event>>
    var pending: int
    var handed: seq<Handed>
    ghost var state: State

    constructor ()
      ensures Valid() && state == Start()
      ensures fresh(set c | c in fdContexts)
    {
      fdContexts := [];
      kernel := map[];
      pending := 0;
      handed := [];
      state := State([], map[], 0, []);
      assert [] + Blank(FIRST_SIZE) == Blank(FIRST_SIZE);
      new;
      ContextResize(FIRST_SIZE);
      EventProofs.StartAgrees();
    }

    ghost predicate ShowsContexts()
      reads this, fdContexts
    {
      && |state.fds| == |fdContexts|
      && forall i :: 0 <= i < |fdContexts| ==> fdContexts[i].fd == i && fdContexts[i].Value() == state.fds[i]
    }

    /** The fields show the state. */
    ghost predicate Shows()
      reads this, fdContexts
    {
      ShowsContexts() && state.kernel == kernel && state.pending == pending && state.handed == handed
    }

    ghost predicate Valid()
      reads this, fdContexts
    {
      Shows() && Agrees(state)
    }

    method ContextResize(size: nat)
      requires Shows()
      modifies this`fdContexts, this`state
      ensures Shows() && fresh(set c | c in fdContexts && c !in old(fdContexts))
      ensures state == old(state).(fds := Resized(old(state).fds, size))
    {
      ghost var fds := state.fds;
      if size < |fdContexts| {
        fdContexts := fdContexts[..size];
        state := state.(fds := fds[..size]);
      }
      ghost var first: nat := |fdContexts|;
      assert state.fds + Blank(0) == state.fds;
      while |fdContexts| < size
        invariant first <= |fdContexts| <= size || first == |fdContexts|
        invariant Shows() && fresh(set c | c in fdContexts && c !in old(fdContexts))
        invariant state == old(state).(fds := (if size < |fds| then fds[..size] else fds) + Blank(|fdContexts| - first))
      {
        ghost var n: nat := |fdContexts| - first;
        var c := new FdContext(|fdContexts|);
        fdContexts := fdContexts + [c];
        state := state.(fds := state.fds + [FdRec({}, EMPTY, EMPTY)]);
        assert Blank(n + 1) == Blank(n) + [FdRec({}, EMPTY, EMPTY)];
      }
    }

    /** epoll_ctl */
    method EpollCtl(op: Control, fd: nat, mask: set<Event>, fault: bool) returns (ok: bool)
      modifies this`kernel
      ensures ok == (Legal(old(kernel), op, fd) && !fault)
      ensures kernel == if ok then Controlled(old(kernel), op, fd, mask) else old(kernel)
    {
      ok := (op == Add <==> fd !in kernel) && !fault;
      if ok {
        if op == Del {
          kernel := kernel - {fd};
        } else {
          kernel := kernel[fd := mask];
        }
      }
    }

    /** The state is brought up to date with a context that was rewritten. */
    ghost method Note(f: FdContext)
      requires f in fdContexts && f.fd < |fdContexts| == |state.fds| && fdContexts[f.fd] == f
      requires forall i :: 0 <= i < |fdContexts| ==> fdContexts[i].fd == i
      requires forall i :: 0 <= i < |fdContexts| && i != f.fd ==> fdContexts[i].Value() == state.fds[i]
      modifies this`state
      ensures Shows()
      ensures state == State(old(state).fds[f.fd := f.Value()], kernel, pending, handed)
    {
      state := State(state.fds[f.fd := f.Value()], kernel, pending, handed);
    }

    /** The context of a descriptor, which the table grows for if need be. */
    method ContextFor(fd: nat) returns (f: FdContext)
      requires Shows() && |state.fds| >= FIRST_SIZE
      modifies this`fdContexts, this`state
      ensures Shows() && fresh(set c | c in fdContexts && c !in old(fdContexts))
      ensures state == old(state).(fds := Grown(old(state).fds, fd))
      ensures fd < |fdContexts| && f == fdContexts[fd]
    {
      GrownHolds(state.fds, fd);
      if |fdContexts| <= fd {
        ContextResize(fd * 3 / 2);
      }
      f := fdContexts[fd];
    }

    /** addEvent once the context is at hand. */
    method Join(f: FdContext, e: Event, scheduler: nat, w: Waiter, fault: bool) returns (r: Outcome)
      requires Shows() && f.fd < |fdContexts| && fdContexts[f.fd] == f && At(state, f.fd)
      modifies this`kernel, this`pending, this`state, f
      ensures Shows()
      ensures r == if e in old(f.events) then Aborted else if fault then Refused else Done
      ensures r != Done ==> state == old(state)
      ensures r == Done ==> state == old(state).(
          fds := old(state).fds[f.fd := EventProofs.Joined(old(state).fds[f.fd], e, scheduler, w)],
          kernel := old(kernel)[f.fd := old(f.events) + {e}],
          pending := old(pending) + 1)
    {
      if e in f.events {
        return Aborted;
      }
      var op := if f.events != {} then Mod else Add;
      var ok := EpollCtl(op, f.fd, f.events + {e}, fault);
      if !ok {
        return Refused;
      }
      pending := pending + 1;
      f.events := f.events + {e};
      if f.Get(e) != EMPTY {
        return Aborted;
      }
      match w {
        case Callback(id) => f.Set(e, Context(Some(scheduler), None, Some(id)));
        case Fiber(id) => f.Set(e, Context(Some(scheduler), Some(id), None));
      }
      Note(f);
      return Done;
    }

    method AddEvent(fd: nat, e: Event, scheduler: nat, w: Waiter, fault: bool) returns (r: Outcome)
      requires Valid()
      modifies this, fdContexts
      ensures (state, r) == EventSpec.AddEvent(old(state), fd, e, scheduler, w, fault)
      ensures Shows() && (r != Aborted ==> Valid())
      ensures fresh(set c | c in fdContexts && c !in old(fdContexts))
    {
      ghost var s := state;
      var f := ContextFor(fd);
      EventProofs.GrownAt(s, fd);
      r := Join(f, e, scheduler, w, fault);
      EventProofs.AddInSteps(s, fd, e, scheduler, w, fault);
      EventProofs.AddAgrees(s, fd, e, scheduler, w, fault);
    }

    method DelEvent(fd: nat, e: Event, fault: bool) returns (r: Outcome)
      requires Valid()
      modifies this, fdContexts
      ensures (state, r) == EventSpec.DelEvent(old(state), fd, e, fault)
      ensures Valid() && fdContexts == old(fdContexts)
    {
      EventProofs.DelAgrees(state, fd, e, fault);
      if |fdContexts| <= fd {
        return Refused;
      }
      var f := fdContexts[fd];
      if e !in f.events {
        return Refused;
      }
      var left := f.events - {e};
      var op := if left != {} then Mod else Del;
      var ok := EpollCtl(op, fd, left, fault);
      if !ok {
        return Refused;
      }
      pending := pending - 1;
      f.events := left;
      f.Set(e, EMPTY);
      Note(f);
      return Done;
    }

    /** triggerEvent and the decrement beside it */
    method Trigger(f: FdContext, e: Event) returns (ok: bool)
      requires Shows() && f.fd < |fdContexts| && fdContexts[f.fd] == f && RecOk(f.Value())
      modifies this`handed, this`pending, this`state, f
      ensures ok == old(e in f.events) && Shows() && RecOk(f.Value())
      ensures state == if ok then EventSpec.Trigger(old(state), f.fd, e) else old(state)
    {
      ghost var s := state;
      assert ContextOk(f.Value(), e);
      var h;
      ok, h := f.Trigger(e);
      if ok {
        handed := handed + [h];
        pending := pending - 1;
        EventProofs.TriggerEmpties(s, f.fd, e);
        Note(f);
      }
    }

    method CancelEvent(fd: nat, e: Event, fault: bool) returns (r: Outcome)
      requires Valid()
      modifies this, fdContexts
      ensures (state, r) == EventSpec.CancelEvent(old(state), fd, e, fault)
      ensures Valid() && fdContexts == old(fdContexts)
    {
      EventProofs.CancelAgrees(state, fd, e, fault);
      if |fdContexts| <= fd {
        return Refused;
      }
      var f := fdContexts[fd];
      if e !in f.events {
        return Refused;
      }
      var left := f.events - {e};
      var op := if left != {} then Mod else Del;
      var ok := EpollCtl(op, fd, left, fault);
      if !ok {
        return Refused;
      }
      state := state.(kernel := kernel);
      var _ := Trigger(f, e);
      return Done;
    }

    method CancelAll(fd: nat, fault: bool) returns (r: Outcome)
      requires Valid()
      modifies this, fdContexts
      ensures (state, r) == EventSpec.CancelAll(old(state), fd, fault)
      ensures Valid() && fdContexts == old(fdContexts)
    {
      EventProofs.CancelAllAgrees(state, fd, fault);
      if |fdContexts| <= fd {
        return Refused;
      }
      var f := fdContexts[fd];
      if f.events == {} {
        return Refused;
      }
      var ok := EpollCtl(Del, fd, {}, fault);
      if !ok {
        return Refused;
      }
      state := state.(kernel := kernel);
      if Read in f.events {
        var _ := Trigger(f, Read);
      }
      if Write in f.events {
        var _ := Trigger(f, Write);
      }
      return Done;
    }

    method Due(ready: set<Flag>) returns (due: set<Event>)
      ensures due == RealEvents(ready)
    {
      var flags := ready;
      if Err in flags || Hup in flags {
        flags := flags + {In, Out};
      }
      due := {};
      if In in flags {
        due := due + {Read};
      }
      if Out in flags {
        due := due + {Write};
      }
    }

    /** The body of the dispatch loop in idle(), for one descriptor. When an assertion fails the process ends. */
    method Dispatch(fd: nat, ready: set<Flag>, fault: bool) returns (r: Outcome)
      requires Valid() && fd < |fdContexts|
      modifies this, fdContexts
      ensures r == EventSpec.Dispatch(old(state), fd, ready, fault).1
      ensures r != Aborted ==> state == EventSpec.Dispatch(old(state), fd, ready, fault).0
      ensures r != Aborted ==> Valid() && fdContexts == old(fdContexts)
    {
      EventProofs.DispatchAgrees(state, fd, ready, fault);
      var f := fdContexts[fd];
      var due := Due(ready);
      if f.events * due == {} {
        return Refused;
      }
      var left := f.events - due;
      var op := if left != {} then Mod else Del;
      var ok := EpollCtl(op, f.fd, left, fault);
      if !ok {
        return Refused;
      }
      state := state.(kernel := kernel);
      if Read in due {
        ok := Trigger(f, Read);
        if !ok {
          return Aborted;
        }
      }
      if Write in due {
        ok := Trigger(f, Write);
        if !ok {
          return Aborted;
        }
      }
      return Done;
    }
  }
}
