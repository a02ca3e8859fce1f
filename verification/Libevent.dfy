/**
 The libevent adapter: one event that carries both directions and the timeout,
 and an object that a cleanup called back from its own handler must not free
 under the handler's feet.
 */
module Libevent {
  import opened Basics
  import opened Hooks

  /** An event as its loop sees it; the preconditions are the documented ones. */
  class Event {
    ghost var usable: bool
    var pending: bool
    var active: bool
    var fd: int
    var flags: set<Flag>
    var timeout: Option<Timeval>

    constructor (fd: int, flags: set<Flag>)
      ensures usable && !pending && !active
    {
      usable, pending, active, this.fd, this.flags, timeout := true, false, false, fd, flags, None;
    }

    /** The loop is about to run the callback. */
    method Activate()
      requires usable
      modifies this`active
      ensures active
    {
      active := true;
    }

    method Del()
      requires usable
      modifies this`pending, this`active
      ensures !pending && !active
    {
      pending, active := false, false;
    }

    method Assign(fd: int, flags: set<Flag>)
      requires usable && !pending && !active
      modifies this`fd, this`flags
      ensures this.fd == fd && this.flags == flags
    {
      this.fd, this.flags := fd, flags;
    }

    method Add(timeout: Option<Timeval>)
      requires usable
      modifies this`pending, this`timeout
      ensures pending && this.timeout == timeout
    {
      pending, this.timeout := true, timeout;
    }

    method Free()
      requires usable
      modifies this
      ensures !usable && !pending && !active
    {
      pending, active := false, false;
      usable := false;
    }
  }

  class AsyncContext {
    const fd: int
    var data: LibeventEvents?

    constructor (fd: int)
      ensures data == null && this.fd == fd
    {
      this.fd, data := fd, null;
    }
  }

  datatype StateBit = Deleted | Entered

  /** The timeout handed to the loop: none exactly for zero. */
  function Armed(tv: Timeval): Option<Timeval> {
    if tv.sec != 0 || tv.usec != 0 then Some(tv) else None
  }

  /** The hook changes something, so the event is registered anew. */
  predicate Effective(interest: set<Flag>, h: Hook) {
    h.SetTimeout? || Ask(interest, h) != interest
  }

  predicate EverEffective(trace: seq<Hook>) {
    trace != [] && (EverEffective(Before(trace)) || Effective(Interest(Before(trace)), Last(trace)))
  }

  /** All that matters of the hooks so far. */
  datatype Asked = Asked(interest: set<Flag>, tv: Timeval, effective: bool) {
    function Next(h: Hook): Asked {
      Asked(Ask(interest, h), if h.SetTimeout? then h.tv else tv, effective || Effective(interest, h))
    }
  }

  function AfterFirst(trace: seq<Hook>, n: nat): Asked
    requires n <= |trace|
  {
    if n == 0 then Asked({}, NO_TIME, false) else AfterFirst(trace, n - 1).Next(trace[n - 1])
  }

  function After(trace: seq<Hook>): Asked {
    AfterFirst(trace, |trace|)
  }

  lemma {:induction false} SameFirst(trace: seq<Hook>, h: Hook, n: nat)
    requires n <= |trace|
    ensures AfterFirst(trace + [h], n) == AfterFirst(trace, n)
  {
    if n > 0 {
      SameFirst(trace, h, n - 1);
    }
  }

  lemma AfterOneMore(trace: seq<Hook>, h: Hook)
    ensures After(trace + [h]) == After(trace).Next(h)
  {
    SameFirst(trace, h, |trace|);
  }

  lemma {:induction false} AfterIs(trace: seq<Hook>)
    ensures After(trace) == Asked(Interest(trace), LastTimeout(trace), EverEffective(trace))
  {
    if trace != [] {
      AfterIs(Before(trace));
      AfterOneMore(Before(trace), Last(trace));
      assert trace == Before(trace) + [Last(trace)];
    }
  }

  /** The first effective hook is the first that adds a direction or sets a timeout, and until then nothing is asked for. */
  lemma {:induction false} EverEffectiveIff(trace: seq<Hook>)
    ensures EverEffective(trace) <==> exists h <- trace :: h.AddRead? || h.AddWrite? || h.SetTimeout?
    ensures !EverEffective(trace) ==> Interest(trace) == {}
  {
    if trace != [] {
      EverEffectiveIff(Before(trace));
      assert trace == Before(trace) + [Last(trace)];
    }
  }

  class LibeventEvents {
    const context: AsyncContext
    var ev: Event?
    var tv: Timeval
    var flags: set<Flag>
    var state: set<StateBit>

    ghost var live: bool
    ghost var frees: nat
    ghost var trace: seq<Hook>

    constructor (context: AsyncContext)
      ensures Tracks() && Idle() && trace == [] && this.context == context
      ensures fresh(ev)
    {
      this.context := context;
      tv, flags, state := NO_TIME, {}, {};
      live, frees, trace := true, 0, [];
      ev := new Event(context.fd, {Read, Write});
    }

    /** The loop watches the socket for the present flags, persistently, with the present timeout. */
    ghost predicate Registered()
      reads this, ev
    {
      ev != null && ev.pending && ev.fd == context.fd && ev.flags == flags + {Persist} && ev.timeout == Armed(tv)
    }

    /** The event is registered exactly as the hooks so far have asked. */
    ghost predicate Tracks()
      reads this, ev
    {
      && flags == After(trace).interest && tv == After(trace).tv && Cleanup !in trace
      && ev != null && ev.usable
      && (ev.pending <==> After(trace).effective)
      && (ev.pending ==> Registered())
    }

    /** The directions that the loop watches. */
    ghost function Watched(): set<Flag>
      reads this, ev
    {
      if ev != null && ev.pending then ev.flags - {Persist} else {}
    }

    /** Outside of the handler. */
    ghost predicate Idle()
      reads this
    {
      live && frees == 0 && state == {}
    }

    /** Inside the handler. */
    ghost predicate Running()
      reads this
    {
      live && frees == 0 && state == {Entered}
    }

    /** Cleaned up, but the handler still has the object. */
    ghost predicate Doomed()
      reads this
    {
      live && frees == 0 && state == {Deleted, Entered} && ev == null && Cleaned(trace)
    }

    ghost predicate Gone()
      reads this
    {
      !live && frees == 1 && ev == null && Cleaned(trace)
    }

    /** Destroy */
    method Destroy()
      requires live
      modifies this`live, this`frees
      ensures !live && frees == old(frees) + 1
    {
      live, frees := false, frees + 1;
    }

    method Update(flag: set<Flag>, isRemove: bool)
      requires live && ev != null && ev.usable
      modifies this`flags, ev
      ensures var same := if isRemove then old(flags) !! flag else !(old(flags) !! flag);
              if same then flags == old(flags) && unchanged(ev)
              else
                && flags == (if isRemove then old(flags) - flag else old(flags) + flag)
                && ev.usable && Registered()
    {
      var timeout := Armed(tv);
      if isRemove {
        if flags !! flag {
          return;
        } else {
          flags := flags - flag;
        }
      } else {
        if !(flags !! flag) {
          return;
        } else {
          flags := flags + flag;
        }
      }
      ev.Del();
      ev.Assign(context.fd, flags + {Persist});
      ev.Add(timeout);
    }

    method SetTimeoutTo(tv: Timeval)
      requires live && ev != null && ev.usable
      modifies this`flags, this`tv, ev
      ensures flags == old(flags) && this.tv == tv
      ensures ev.usable && Registered()
      ensures ev.timeout == None <==> tv.sec == 0 && tv.usec == 0
      ensures ev.timeout != None ==> ev.timeout == Some(tv)
    {
      var flags := this.flags;
      this.flags := {};
      this.tv := tv;
      Update(flags, false);
    }

    /** addRead, delRead, addWrite, delWrite and scheduleTimer. */
    method Request(h: Hook)
      requires h != Cleanup && live && Tracks()
      modifies this`flags, this`tv, this`trace, ev
      ensures Tracks() && trace == old(trace) + [h]
      ensures ev.usable && !(ev.pending && ev.fd != context.fd)
      ensures ev.pending ==> ev.flags == Interest(trace) + {Persist}
      ensures ev.pending ==> (ev.timeout == None <==> LastTimeout(trace).sec == 0 && LastTimeout(trace).usec == 0)
      ensures ev.pending && ev.timeout != None ==> ev.timeout == Some(LastTimeout(trace))
    {
      AfterOneMore(trace, h);
      trace := trace + [h];
      match h {
        case AddRead => Update({Read}, false);
        case DelRead => Update({Read}, true);
        case AddWrite => Update({Write}, false);
        case DelWrite => Update({Write}, true);
        case SetTimeout(tv) => SetTimeoutTo(tv);
      }
      TracksSays(this);
    }

    /** cleanup */
    method CleanUp()
      requires (Idle() || Running()) && Tracks()
      modifies this`ev, this`state, this`live, this`frees, this`trace, ev
      ensures !old(ev).usable && !old(ev).pending && trace == old(trace) + [Cleanup]
      ensures if Entered in old(state) then Doomed() else Gone()
    {
      ev.Del();
      ev.Free();
      ev := null;
      trace := trace + [Cleanup];
      if Entered in state {
        state := state + {Deleted};
      } else {
        Destroy();
      }
    }

    /** What a callback into the client does: hooks, possibly up to a cleanup. */
    method CallBack(hooks: seq<Hook>)
      requires Running() && Tracks() && Script(hooks) && state == {Entered}
      modifies this, ev
      ensures trace == old(trace) + hooks && live && frees == 0
      ensures state == {Entered} + if hooks != [] && hooks[|hooks| - 1] == Cleanup then {Deleted} else {}
      ensures if Cleaned(hooks) then Doomed() else Running() && Tracks() && ev == old(ev)
    {
      ghost var past := trace;
      for i := 0 to |hooks|
        invariant trace == past + hooks[..i]
        invariant ev == if Cleaned(hooks[..i]) then null else old(ev)
        invariant if Cleaned(hooks[..i]) then Doomed() else Running() && Tracks()
      {
        assert hooks[..i + 1] == hooks[..i] + [hooks[i]];
        assert i < |hooks| - 1 ==> Before(hooks)[i] == hooks[i];
        assert i > 0 ==> hooks[i - 1] == Before(hooks)[i - 1];
        if hooks[i] == Cleanup {
          CleanUp();
        } else {
          Request(hooks[i]);
        }
      }
      assert hooks[..|hooks|] == hooks;
    }

    /** The check after every callback. */
    method CheckDeleted() returns (stop: bool)
      requires Running() || Doomed()
      modifies this`live, this`frees
      ensures stop == old(Doomed())
      ensures if stop then Gone() else Running()
    {
      stop := Deleted in state;
      if stop {
        Destroy();
      }
    }

    /** One branch of the handler, with the check behind it. */
    method Branch(wanted: bool, hooks: seq<Hook>) returns (stop: bool)
      requires Running() && Tracks() && Script(hooks)
      modifies this, ev
      ensures trace == old(trace) + if wanted then hooks else []
      ensures stop == (wanted && Cleaned(hooks))
      ensures if stop then Gone() else Running() && Tracks() && ev == old(ev)
    {
      stop := false;
      if wanted && Deleted !in state {
        CallBack(hooks);
        stop := CheckDeleted();
      } else {
        assert trace + [] == trace;
      }
    }

    /** The body of the handler, with what the callbacks do given for each of them. */
    method RunBranches(events: set<Flag>, onTimeout: seq<Hook>, onRead: seq<Hook>, onWrite: seq<Hook>)
      requires Idle() && Tracks() && Script(onTimeout) && Script(onRead) && Script(onWrite)
      modifies this, ev
      ensures trace == old(trace) + Fired(events, onTimeout, onRead, onWrite)
      ensures if Cleaned(Fired(events, onTimeout, onRead, onWrite)) then Gone() else Idle() && Tracks() && ev == old(ev)
    {
      ghost var t := if Timeout in events then onTimeout else [];
      ghost var r := if Read in events then onRead else [];
      ghost var w := if Write in events then onWrite else [];
      ThenCleaned(trace, t, Then(r, w));
      ThenCleaned(trace + t, r, w);
      state := state + {Entered};
      var stop := Branch(Timeout in events, onTimeout);
      if !stop {
        stop := Branch(Read in events, onRead);
      }
      if !stop {
        stop := Branch(Write in events, onWrite);
      }
      if !stop {
        state := state - {Entered};
      }
    }

    /** The handler: the timeout callback comes first, then read, then write, each only if its event fired, and none after
        one that cleans up. */
    method Handler(events: set<Flag>, onTimeout: seq<Hook>, onRead: seq<Hook>, onWrite: seq<Hook>)
      requires Idle() && Tracks() && Script(onTimeout) && Script(onRead) && Script(onWrite)
      modifies this, ev
      ensures trace == old(trace) + Fired(events, onTimeout, onRead, onWrite)
      ensures if Cleaned(Fired(events, onTimeout, onRead, onWrite)) then Gone() else Idle() && Tracks() && ev == old(ev)
      ensures var t := if Timeout in events then onTimeout else [];
              var r := if Read in events then onRead else [];
              var w := if Write in events then onWrite else [];
              trace == old(trace) + if Cleanup in t then t else if Cleanup in r then t + r else t + r + w
    {
      FiredIs(events, onTimeout, onRead, onWrite);
      RunBranches(events, onTimeout, onRead, onWrite);
    }
  }

  /** `hooks`, and `rest` unless they clean up. */
  function Then(hooks: seq<Hook>, rest: seq<Hook>): seq<Hook> {
    if Cleaned(hooks) then hooks else hooks + rest
  }

  /** The hooks that the callbacks of one handler call get to. */
  function Fired(events: set<Flag>, onTimeout: seq<Hook>, onRead: seq<Hook>, onWrite: seq<Hook>): seq<Hook> {
    Then(if Timeout in events then onTimeout else [],
         Then(if Read in events then onRead else [], if Write in events then onWrite else []))
  }

  /** The callbacks come in this order: timeout, read, write, each only if its event fired; the first that cleans up is
      the last. */
  lemma FiredIs(events: set<Flag>, onTimeout: seq<Hook>, onRead: seq<Hook>, onWrite: seq<Hook>)
    requires Script(onTimeout) && Script(onRead) && Script(onWrite)
    ensures var t := if Timeout in events then onTimeout else [];
            var r := if Read in events then onRead else [];
            var w := if Write in events then onWrite else [];
            Fired(events, onTimeout, onRead, onWrite) ==
              if Cleanup in t then t else if Cleanup in r then t + r else t + r + w
  {
    ScriptIs(onTimeout);
    ScriptIs(onRead);
    var t := if Timeout in events then onTimeout else [];
    var r := if Read in events then onRead else [];
    var w := if Write in events then onWrite else [];
    assert t + (r + w) == t + r + w;
  }

  lemma ThenCleaned(trace: seq<Hook>, hooks: seq<Hook>, rest: seq<Hook>)
    ensures Cleaned(Then(hooks, rest)) == (Cleaned(hooks) || Cleaned(rest))
    ensures trace + Then(hooks, rest) == if Cleaned(hooks) then trace + hooks else trace + hooks + rest
  {
  }

  // ---------- Whole runs ----------

  datatype Step =
    | Call(h: Hook)
    | Fire(events: set<Flag>, onTimeout: seq<Hook>, onRead: seq<Hook>, onWrite: seq<Hook>)

  function HooksOf(step: Step): seq<Hook> {
    match step
    case Call(h) => [h]
    case Fire(events, t, r, w) => Fired(events, t, r, w)
  }

  predicate Legal(step: Step) {
    step.Fire? ==> Script(step.onTimeout) && Script(step.onRead) && Script(step.onWrite)
  }

  /** The hooks called in the first `n` steps. */
  function AllHooks(steps: seq<Step>, n: nat): seq<Hook>
    requires n <= |steps|
  {
    if n == 0 then [] else AllHooks(steps, n - 1) + HooksOf(steps[n - 1])
  }

  /** Every callback keeps the contract, and nothing happens after a cleanup. */
  predicate LegalRun(steps: seq<Step>) {
    forall i {:trigger LegalAt(steps, i)} :: 0 <= i < |steps| ==> LegalAt(steps, i)
  }

  predicate LegalAt(steps: seq<Step>, i: nat)
    requires i < |steps|
  {
    Legal(steps[i]) && !Cleaned(AllHooks(steps, i))
  }

  lemma {:induction false} SameHooks(steps: seq<Step>, step: Step, n: nat)
    requires n <= |steps|
    ensures AllHooks(steps + [step], n) == AllHooks(steps, n)
  {
    if n > 0 {
      SameHooks(steps, step, n - 1);
    }
  }

  /** A run may go on as long as the last hook was no cleanup, and with callbacks that end at a cleanup. */
  lemma LegalRunSays(steps: seq<Step>, step: Step)
    ensures LegalRun(steps + [step]) <==>
              && LegalRun(steps)
              && (step.Fire? ==> Script(step.onTimeout) && Script(step.onRead) && Script(step.onWrite))
              && (var hooks := AllHooks(steps, |steps|); hooks == [] || hooks[|hooks| - 1] != Cleanup)
  {
    LegalMore(steps, step);
    LegalNext(steps, step);
  }

  lemma NothingIsLegal()
    ensures LegalRun([])
  {
  }

  lemma LegalMore(steps: seq<Step>, step: Step)
    ensures LegalRun(steps + [step]) <==> LegalRun(steps) && LegalAt(steps + [step], |steps|)
  {
    var longer := steps + [step];
    forall i | 0 <= i < |steps|
      ensures LegalAt(longer, i) <==> LegalAt(steps, i)
    {
      SameLegal(steps, step, i);
    }
    if LegalRun(longer) {
      forall i | 0 <= i < |steps|
        ensures LegalAt(steps, i)
      {
        assert LegalAt(longer, i);
      }
    }
  }

  lemma SameLegal(steps: seq<Step>, step: Step, i: nat)
    requires i < |steps|
    ensures LegalAt(steps + [step], i) <==> LegalAt(steps, i)
  {
    SameHooks(steps, step, i);
  }

  lemma LegalNext(steps: seq<Step>, step: Step)
    ensures LegalAt(steps + [step], |steps|) <==>
              && (step.Fire? ==> Script(step.onTimeout) && Script(step.onRead) && Script(step.onWrite))
              && (var hooks := AllHooks(steps, |steps|); hooks == [] || hooks[|hooks| - 1] != Cleanup)
  {
    SameHooks(steps, step, |steps|);
  }

  lemma CleanedLast(trace: seq<Hook>, hooks: seq<Hook>)
    requires !Cleaned(trace)
    ensures Cleaned(trace + hooks) == Cleaned(hooks)
  {
  }

  /** attach: nothing is attached where something is already. */
  method Attach(ac: AsyncContext) returns (e: LibeventEvents?)
    modifies ac`data
    ensures old(ac.data) != null ==> e == null && ac.data == old(ac.data)
    ensures old(ac.data) == null ==> e != null && e == ac.data && fresh(e) && fresh(e.ev)
                                     && e.context == ac && e.Idle() && e.Tracks() && e.trace == []
  {
    if ac.data != null {
      return null;
    }
    e := new LibeventEvents(ac);
    ac.data := e;
  }

  /** The hooks of a step and of a run, in plain words. */
  lemma RunSays(steps: seq<Step>, i: nat)
    requires LegalRun(steps) && i < |steps|
    ensures AllHooks(steps, 0) == [] && AllHooks(steps, i + 1) == AllHooks(steps, i) + HooksOf(steps[i])
    ensures steps[i].Call? ==> HooksOf(steps[i]) == [steps[i].h]
    ensures steps[i].Fire? ==>
              var t := if Timeout in steps[i].events then steps[i].onTimeout else [];
              var r := if Read in steps[i].events then steps[i].onRead else [];
              var w := if Write in steps[i].events then steps[i].onWrite else [];
              HooksOf(steps[i]) == if Cleanup in t then t else if Cleanup in r then t + r else t + r + w
  {
    if steps[i].Fire? {
      assert LegalAt(steps, i);
      FiredIs(steps[i].events, steps[i].onTimeout, steps[i].onRead, steps[i].onWrite);
    }
  }

  method TakeCall(e: LibeventEvents, h: Hook)
    requires e.Idle() && e.Tracks()
    modifies e, e.ev
    ensures e.trace == old(e.trace) + [h]
    ensures if h == Cleanup then e.Gone() else e.Idle() && e.Tracks() && e.ev == old(e.ev)
  {
    if h == Cleanup {
      e.CleanUp();
    } else {
      e.Request(h);
    }
  }

  method Take(e: LibeventEvents, step: Step)
    requires e.Idle() && e.Tracks() && Legal(step)
    modifies e, e.ev
    ensures e.trace == old(e.trace) + HooksOf(step)
    ensures if Cleaned(HooksOf(step)) then e.Gone() else e.Idle() && e.Tracks() && e.ev == old(e.ev)
  {
    match step
    case Call(h) =>
      TakeCall(e, h);
    case Fire(events, t, r, w) =>
      e.ev.Activate();
      e.Handler(events, t, r, w);
  }

  /** In every run the object is freed exactly once, by the cleanup or by the handler that it was
      called from, and every earlier state is registered as asked for. */
  method Run(ac: AsyncContext, steps: seq<Step>) returns (e: LibeventEvents)
    requires ac.data == null && LegalRun(steps)
    modifies ac`data
    ensures e.trace == AllHooks(steps, |steps|)
    ensures if Cleaned(AllHooks(steps, |steps|)) then e.Gone() else e.Idle() && e.Tracks()
    ensures e.frees == (if Cleanup in e.trace then 1 else 0) && e.live == (Cleanup !in e.trace)
    ensures e.live ==> e.state == {} && e.ev != null && e.ev.usable
    ensures !e.live ==> e.ev == null
  {
    e := Attach(ac);
    for i := 0 to |steps|
      invariant fresh(e) && e.trace == AllHooks(steps, i)
      invariant if Cleaned(AllHooks(steps, i)) then e.Gone() else e.Idle() && e.Tracks() && fresh(e.ev)
    {
      assert LegalAt(steps, i);
      CleanedLast(AllHooks(steps, i), HooksOf(steps[i]));
      Take(e, steps[i]);
    }
  }

  /** What registration amounts to, on the event itself. */
  lemma TracksSays(e: LibeventEvents)
    requires e.Tracks()
    ensures e.flags == Interest(e.trace) && e.ev != null && e.ev.usable
    ensures e.ev.pending <==> exists h <- e.trace :: h.AddRead? || h.AddWrite? || h.SetTimeout?
    ensures e.ev.pending ==> e.ev.fd == e.context.fd && e.ev.flags == Interest(e.trace) + {Persist}
    ensures e.ev.pending ==> (e.ev.timeout == None <==> LastTimeout(e.trace).sec == 0 && LastTimeout(e.trace).usec == 0)
    ensures e.ev.pending && e.ev.timeout != None ==> e.ev.timeout == Some(LastTimeout(e.trace))
  {
    AfterIs(e.trace);
    EverEffectiveIff(e.trace);
  }

  lemma WatchedIsInterest(e: LibeventEvents)
    requires if Cleaned(e.trace) then e.ev == null else e.Tracks()
    ensures e.Watched() == Interest(e.trace)
  {
    AfterIs(e.trace);
    EverEffectiveIff(e.trace);
    OnlyDirections(e.trace);
  }
}
