/**
 The other event loop adapters.  Each comes with the part of its event loop that
 it drives; what the loop demands of its callers are preconditions there.
 */
module Adapters {
  import opened Basics
  import opened Hooks
  import opened Libevent

  // ---------- ae ----------

  class AeLoop {
    var mask: set<Flag>

    constructor ()
      ensures mask == {}
    {
      mask := {};
    }

    /** aeCreateFileEvent, never for what is registered already. */
    method Create(flag: Flag)
      requires flag !in mask
      modifies this
      ensures mask == old(mask) + {flag}
    {
      mask := mask + {flag};
    }

    /** aeDeleteFileEvent, only for what is registered. */
    method Delete(flag: Flag)
      requires flag in mask
      modifies this
      ensures mask == old(mask) - {flag}
    {
      mask := mask - {flag};
    }
  }

  class Ae {
    const loop: AeLoop
    var reading: bool
    var writing: bool
    ghost var live: bool
    ghost var trace: seq<Hook>

    constructor (loop: AeLoop)
      requires loop.mask == {}
      ensures Valid() && live && trace == [] && this.loop == loop
    {
      this.loop := loop;
      reading, writing, live, trace := false, false, true, [];
    }

    ghost predicate Valid()
      reads this, loop
    {
      && loop.mask == Interest(trace)
      && reading == (Read in loop.mask) && writing == (Write in loop.mask)
    }

    method AddReading()
      requires live && reading == (Read in loop.mask)
      modifies this`reading, loop
      ensures loop.mask == old(loop.mask) + {Read} && reading
    {
      if !reading {
        reading := true;
        loop.Create(Read);
      }
    }

    method DelReading()
      requires live && reading == (Read in loop.mask)
      modifies this`reading, loop
      ensures loop.mask == old(loop.mask) - {Read} && !reading
    {
      if reading {
        reading := false;
        loop.Delete(Read);
      }
    }

    method AddWriting()
      requires live && writing == (Write in loop.mask)
      modifies this`writing, loop
      ensures loop.mask == old(loop.mask) + {Write} && writing
    {
      if !writing {
        writing := true;
        loop.Create(Write);
      }
    }

    method DelWriting()
      requires live && writing == (Write in loop.mask)
      modifies this`writing, loop
      ensures loop.mask == old(loop.mask) - {Write} && !writing
    {
      if writing {
        writing := false;
        loop.Delete(Write);
      }
    }

    method CleanUp()
      requires live && loop.mask <= {Read, Write} && reading == (Read in loop.mask) && writing == (Write in loop.mask)
      modifies this`reading, this`writing, this`live, loop
      ensures !live && loop.mask == {} && !reading && !writing
    {
      DelReading();
      DelWriting();
      live := false;
    }

    /** The hook for `h`; there is none for timeouts. */
    method Perform(h: Hook)
      requires live && Valid()
      modifies this, loop
      ensures Valid() && trace == old(trace) + [h] && live == (h != Cleanup)
      ensures loop.mask == Interest(trace)
    {
      OneMore(trace, h);
      OnlyDirections(trace);
      trace := trace + [h];
      match h
      case AddRead => AddReading();
      case DelRead => DelReading();
      case AddWrite => AddWriting();
      case DelWrite => DelWriting();
      case SetTimeout(_) =>
      case Cleanup => CleanUp();
    }
  }

  // ---------- libev ----------

  class Watcher {
    var active: bool

    constructor ()
      ensures !active
    {
      active := false;
    }

    method Start()
      requires !active
      modifies this
      ensures active
    {
      active := true;
    }

    method Stop()
      requires active
      modifies this
      ensures !active
    {
      active := false;
    }
  }

  class Timer {
    var active: bool
    var repeat: real

    constructor ()
      ensures !active && repeat == 0.0
    {
      active, repeat := false, 0.0;
    }

    /** ev_timer_again: starts, restarts or, with nothing to repeat, stops the timer. */
    method Again()
      modifies this`active
      ensures active == (repeat != 0.0)
    {
      if active {
        active := repeat != 0.0;
      } else if repeat != 0.0 {
        active := true;
      }
    }

    method Stop()
      modifies this`active
      ensures !active
    {
      active := false;
    }
  }

  function Seconds(tv: Timeval): real {
    tv.sec as real + tv.usec as real / 1000000.0
  }

  class Libev {
    const rev: Watcher
    const wev: Watcher
    const timer: Timer
    var reading: bool
    var writing: bool
    ghost var live: bool
    ghost var trace: seq<Hook>

    constructor ()
      ensures Valid() && live && trace == []
      ensures fresh(rev) && fresh(wev) && fresh(timer)
    {
      rev := new Watcher();
      wev := new Watcher();
      timer := new Timer();
      reading, writing, live, trace := false, false, true, [];
    }

    ghost predicate Valid()
      reads this, rev, wev, timer
    {
      && rev != wev && Watched() == Interest(trace)
      && reading == rev.active && writing == wev.active
      && timer.repeat == Seconds(LastTimeout(trace))
      && (live ==> timer.active == (timer.repeat != 0.0))
      && (!live ==> !timer.active)
    }

    ghost function Watched(): set<Flag>
      reads rev, wev
    {
      (if rev.active then {Read} else {}) + if wev.active then {Write} else {}
    }

    method AddReading()
      requires live && reading == rev.active
      modifies this`reading, rev
      ensures rev.active && reading
    {
      if !reading {
        reading := true;
        rev.Start();
      }
    }

    method DelReading()
      requires live && reading == rev.active
      modifies this`reading, rev
      ensures !rev.active && !reading
    {
      if reading {
        reading := false;
        rev.Stop();
      }
    }

    method AddWriting()
      requires live && writing == wev.active
      modifies this`writing, wev
      ensures wev.active && writing
    {
      if !writing {
        writing := true;
        wev.Start();
      }
    }

    method DelWriting()
      requires live && writing == wev.active
      modifies this`writing, wev
      ensures !wev.active && !writing
    {
      if writing {
        writing := false;
        wev.Stop();
      }
    }

    method SetTimeoutTo(tv: Timeval)
      requires live
      modifies timer
      ensures timer.repeat == tv.sec as real + tv.usec as real / 1000000.0
      ensures timer.active == (timer.repeat != 0.0)
    {
      timer.repeat := Seconds(tv);
      timer.Again();
    }

    method CleanUp()
      requires live && rev != wev && reading == rev.active && writing == wev.active
      modifies this`reading, this`writing, this`live, rev, wev, timer`active
      ensures !live && !rev.active && !wev.active && !reading && !writing && !timer.active
    {
      DelReading();
      DelWriting();
      timer.Stop();
      live := false;
    }

    method Perform(h: Hook)
      requires live && Valid()
      modifies this, rev, wev, timer
      ensures Valid() && trace == old(trace) + [h] && live == (h != Cleanup)
      ensures rev.active == (Read in Interest(trace)) && wev.active == (Write in Interest(trace))
      ensures var tv := LastTimeout(trace);
              && (live ==> timer.repeat == tv.sec as real + tv.usec as real / 1000000.0)
              && timer.active == (live && tv.sec as real + tv.usec as real / 1000000.0 != 0.0)
    {
      OneMore(trace, h);
      OnlyDirections(trace);
      trace := trace + [h];
      match h
      case AddRead => AddReading();
      case DelRead => DelReading();
      case AddWrite => AddWriting();
      case DelWrite => DelWriting();
      case SetTimeout(tv) => SetTimeoutTo(tv);
      case Cleanup => CleanUp();
    }
  }

  // ---------- libuv ----------

  class PollHandle {
    var watched: set<Flag>
    var closing: bool

    constructor ()
      ensures watched == {} && !closing
    {
      watched, closing := {}, false;
    }

    method Start(events: set<Flag>)
      requires !closing && events != {}
      modifies this
      ensures watched == events && !closing
    {
      watched := events;
    }

    method Stop()
      requires !closing
      modifies this
      ensures watched == {} && !closing
    {
      watched := {};
    }

    method Close()
      requires !closing
      modifies this
      ensures closing && watched == {}
    {
      watched, closing := {}, true;
    }
  }

  class Libuv {
    const handle: PollHandle
    var attached: bool
    var events: set<Flag>
    ghost var trace: seq<Hook>

    constructor ()
      ensures Valid() && attached && trace == [] && fresh(handle)
    {
      handle := new PollHandle();
      attached, events, trace := true, {}, [];
    }

    ghost predicate Valid()
      reads this, handle
    {
      && handle.watched == Interest(trace)
      && attached == !handle.closing
      && (attached ==> events == handle.watched)
    }

    method Add(flag: Flag)
      requires !handle.closing
      modifies this`events, handle
      ensures events == old(events) + {flag} && handle.watched == events && !handle.closing
    {
      events := events + {flag};
      handle.Start(events);
    }

    method Del(flag: Flag)
      requires !handle.closing
      modifies this`events, handle
      ensures events == old(events) - {flag} && handle.watched == events && !handle.closing
    {
      events := events - {flag};
      if events != {} {
        handle.Start(events);
      } else {
        handle.Stop();
      }
    }

    method CleanUp()
      requires !handle.closing
      modifies this`attached, handle
      ensures !attached && handle.closing && handle.watched == {}
    {
      attached := false;
      handle.Close();
    }

    method Perform(h: Hook)
      requires attached && Valid()
      modifies this, handle
      ensures Valid() && trace == old(trace) + [h] && attached == (h != Cleanup)
      ensures handle.watched == Interest(trace) && handle.closing == (h == Cleanup)
    {
      OneMore(trace, h);
      OnlyDirections(trace);
      trace := trace + [h];
      match h
      case AddRead => Add(Read);
      case DelRead => Del(Read);
      case AddWrite => Add(Write);
      case DelWrite => Del(Write);
      case SetTimeout(_) =>
      case Cleanup => CleanUp();
    }
  }

  // ---------- glib ----------

  class Glib {
    var polled: bool
    var fd: int
    var events: set<Flag>
    ghost var trace: seq<Hook>

    constructor (fd: int)
      ensures Valid() && trace == []
    {
      polled, this.fd, events, trace := true, fd, {}, [];
    }

    ghost predicate Valid()
      reads this
    {
      events == Interest(trace) && (events != {} ==> polled) && (Cleanup !in trace ==> polled)
    }

    /** The main loop watches what is set in a poll record that it has. */
    ghost function Watched(): set<Flag>
      reads this
    {
      if polled then events else {}
    }

    method CleanUp()
      requires events <= {Read, Write}
      modifies this`events, this`polled, this`fd
      ensures events == {} && (old(fd) >= 0 ==> !polled && fd == -1)
    {
      events := events - {Read};
      events := events - {Write};
      if fd >= 0 {
        polled := false;
        fd := -1;
      }
    }

    method Perform(h: Hook)
      requires Valid() && Cleanup !in trace
      modifies this
      ensures Valid() && trace == old(trace) + [h]
      ensures events == Interest(trace) && (h != Cleanup ==> polled)
    {
      OneMore(trace, h);
      OnlyDirections(trace);
      trace := trace + [h];
      match h
      case AddRead => events := events + {Read};
      case DelRead => events := events - {Read};
      case AddWrite => events := events + {Write};
      case DelWrite => events := events - {Write};
      case SetTimeout(_) =>
      case Cleanup => CleanUp();
    }
  }

  // ---------- Qt ----------

  class SocketNotifier {
    const fd: int
    const direction: Flag
    ghost var live: bool

    constructor (fd: int, direction: Flag)
      ensures live && this.fd == fd && this.direction == direction
    {
      this.fd, this.direction := fd, direction;
      live := true;
    }

    method Delete()
      requires live
      modifies this
      ensures !live
    {
      live := false;
    }
  }

  class Qt {
    const fd: int
    var read: SocketNotifier?
    var write: SocketNotifier?
    ghost var trace: seq<Hook>

    constructor (fd: int)
      ensures Valid() && trace == [] && read == null && write == null
    {
      this.fd := fd;
      read, write, trace := null, null, [];
    }

    ghost predicate Notifies(n: SocketNotifier?, direction: Flag)
      reads n
    {
      n != null ==> n.live && n.fd == fd && n.direction == direction
    }

    ghost predicate Valid()
      reads this, read, write
    {
      && Notifies(read, Read) && Notifies(write, Write)
      && Watched() == Interest(trace)
    }

    ghost function Watched(): set<Flag>
      reads this, read, write
    {
      (if read != null && read.live then {read.direction} else {}) +
      if write != null && write.live then {write.direction} else {}
    }

    method DelReading()
      requires Notifies(read, Read)
      modifies this`read, read
      ensures read == null && (old(read) != null ==> !old(read).live)
    {
      if read != null {
        read.Delete();
        read := null;
      }
    }

    method DelWriting()
      requires Notifies(write, Write)
      modifies this`write, write
      ensures write == null && (old(write) != null ==> !old(write).live)
    {
      if write != null {
        write.Delete();
        write := null;
      }
    }

    method AddReading()
      requires Notifies(read, Read)
      modifies this`read
      ensures Notifies(read, Read) && read != null && (old(read) != null ==> read == old(read))
      ensures old(read) == null ==> fresh(read)
    {
      if read == null {
        read := new SocketNotifier(fd, Read);
      }
    }

    method AddWriting()
      requires Notifies(write, Write)
      modifies this`write
      ensures Notifies(write, Write) && write != null && (old(write) != null ==> write == old(write))
      ensures old(write) == null ==> fresh(write)
    {
      if write == null {
        write := new SocketNotifier(fd, Write);
      }
    }

    method Perform(h: Hook)
      requires Valid()
      modifies this, read, write
      ensures Valid() && trace == old(trace) + [h]
      ensures Read in Interest(trace) <==> read != null
      ensures Write in Interest(trace) <==> write != null
      ensures read != null ==> read.live && read.fd == fd && read.direction == Read
      ensures write != null ==> write.live && write.fd == fd && write.direction == Write
      ensures read != old(read) && read != null ==> fresh(read)
      ensures write != old(write) && write != null ==> fresh(write)
    {
      OneMore(trace, h);
      OnlyDirections(trace);
      trace := trace + [h];
      match h
      case AddRead => AddReading();
      case DelRead => DelReading();
      case AddWrite => AddWriting();
      case DelWrite => DelWriting();
      case SetTimeout(_) =>
      case Cleanup =>
        DelReading();
        DelWriting();
    }
  }

  // ---------- The same hooks for all ----------

  lemma NoCleanupBefore(hooks: seq<Hook>, i: nat)
    requires Script(hooks) && i < |hooks|
    ensures Cleanup !in hooks[..i] && hooks[..i + 1] == hooks[..i] + [hooks[i]]
    ensures !Cleaned(hooks[..i])
  {
    assert forall j :: 0 <= j < i ==> hooks[j] == Before(hooks)[j];
  }

  method RunAe(hooks: seq<Hook>) returns (a: Ae)
    requires Script(hooks)
    ensures fresh(a) && fresh(a.loop) && a.Valid() && a.trace == hooks && a.live == (Cleanup !in hooks)
    ensures a.loop.mask == Interest(hooks)
  {
    var loop := new AeLoop();
    a := new Ae(loop);
    for i := 0 to |hooks|
      invariant fresh(a) && fresh(a.loop) && a.live == (Cleanup !in hooks[..i])
      invariant a.Valid() && a.trace == hooks[..i]
    {
      NoCleanupBefore(hooks, i);
      a.Perform(hooks[i]);
    }
    assert hooks[..|hooks|] == hooks;
  }

  method RunLibev(hooks: seq<Hook>) returns (a: Libev)
    requires Script(hooks)
    ensures fresh(a) && fresh(a.rev) && fresh(a.wev) && fresh(a.timer)
    ensures a.Valid() && a.trace == hooks && a.live == (Cleanup !in hooks)
    ensures a.Watched() == Interest(hooks)
  {
    a := new Libev();
    for i := 0 to |hooks|
      invariant fresh(a) && fresh(a.rev) && fresh(a.wev) && fresh(a.timer) && a.live == (Cleanup !in hooks[..i])
      invariant a.Valid() && a.trace == hooks[..i]
    {
      NoCleanupBefore(hooks, i);
      a.Perform(hooks[i]);
    }
    assert hooks[..|hooks|] == hooks;
  }

  method RunLibuv(hooks: seq<Hook>) returns (a: Libuv)
    requires Script(hooks)
    ensures fresh(a) && fresh(a.handle) && a.Valid() && a.trace == hooks && a.attached == (Cleanup !in hooks)
    ensures a.handle.watched == Interest(hooks)
  {
    a := new Libuv();
    for i := 0 to |hooks|
      invariant fresh(a) && fresh(a.handle) && a.attached == (Cleanup !in hooks[..i])
      invariant a.Valid() && a.trace == hooks[..i]
    {
      NoCleanupBefore(hooks, i);
      a.Perform(hooks[i]);
    }
    assert hooks[..|hooks|] == hooks;
  }

  method RunGlib(hooks: seq<Hook>, fd: int) returns (a: Glib)
    requires Script(hooks)
    ensures fresh(a) && a.Valid() && a.trace == hooks
    ensures a.Watched() == Interest(hooks)
  {
    a := new Glib(fd);
    for i := 0 to |hooks|
      invariant fresh(a)
      invariant a.Valid() && a.trace == hooks[..i]
    {
      NoCleanupBefore(hooks, i);
      a.Perform(hooks[i]);
    }
    assert hooks[..|hooks|] == hooks;
  }

  method RunQt(hooks: seq<Hook>, fd: int) returns (a: Qt)
    requires Script(hooks)
    ensures fresh(a) && (a.read != null ==> fresh(a.read)) && (a.write != null ==> fresh(a.write))
    ensures a.Valid() && a.trace == hooks
    ensures a.Watched() == Interest(hooks)
  {
    a := new Qt(fd);
    for i := 0 to |hooks|
      invariant fresh(a) && (a.read != null ==> fresh(a.read)) && (a.write != null ==> fresh(a.write))
      invariant a.Valid() && a.trace == hooks[..i]
    {
      NoCleanupBefore(hooks, i);
      a.Perform(hooks[i]);
    }
    assert hooks[..|hooks|] == hooks;
  }

  method RunLibevent(hooks: seq<Hook>, fd: int) returns (e: LibeventEvents)
    requires Script(hooks)
    ensures fresh(e) && e.trace == hooks
    ensures if Cleaned(hooks) then e.Gone() else e.Idle() && e.Tracks() && fresh(e.ev)
    ensures e.Watched() == Interest(hooks)
  {
    var ac := new AsyncContext(fd);
    e := new LibeventEvents(ac);
    for i := 0 to |hooks|
      invariant fresh(e) && e.trace == hooks[..i]
      invariant if Cleaned(hooks[..i]) then e.Gone() else e.Idle() && e.Tracks() && fresh(e.ev)
    {
      NoCleanupBefore(hooks, i);
      Take(e, Call(hooks[i]));
    }
    assert hooks[..|hooks|] == hooks;
    WatchedIsInterest(e);
  }

  /** Whatever the client asks for, step by step, every event loop watches the same directions for it; and all adapters
      are left to go on with, unless they were cleaned up. */
  method AllAgree(hooks: seq<Hook>, fd: int)
    returns (ae: Ae, libev: Libev, libuv: Libuv, glib: Glib, qt: Qt, libevent: LibeventEvents)
    requires Script(hooks)
    ensures ae.trace == libev.trace == libuv.trace == glib.trace == qt.trace == libevent.trace == hooks
    ensures ae.Valid() && libev.Valid() && libuv.Valid() && glib.Valid() && qt.Valid()
    ensures ae.live == libev.live == libuv.attached == (Cleanup !in hooks)
    ensures if Cleaned(hooks) then libevent.Gone() else libevent.Idle() && libevent.Tracks()
    ensures ae.loop.mask == libev.Watched() == libuv.handle.watched == Interest(hooks)
    ensures glib.Watched() == qt.Watched() == libevent.Watched() == Interest(hooks)
  {
    ae := RunAe(hooks);
    libev := RunLibev(hooks);
    libuv := RunLibuv(hooks);
    glib := RunGlib(hooks, fd);
    qt := RunQt(hooks, fd);
    libevent := RunLibevent(hooks, fd);
  }
}
