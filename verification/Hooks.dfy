/**
 The contract between an asynchronous client and the event loop adapter behind
 it: what has been asked for after any sequence of hook calls.
 */
module Hooks {
  import opened Basics

  datatype Flag = Timeout | Read | Write | Persist

  datatype Timeval = Timeval(sec: int, usec: int)

  datatype Hook = AddRead | DelRead | AddWrite | DelWrite | SetTimeout(tv: Timeval) | Cleanup

  /** What one hook makes of the interest in the socket. */
  function Ask(interest: set<Flag>, h: Hook): set<Flag> {
    match h
    case AddRead => interest + {Read}
    case DelRead => interest - {Read}
    case AddWrite => interest + {Write}
    case DelWrite => interest - {Write}
    case SetTimeout(_) => interest
    case Cleanup => {}
  }

  function Interest(trace: seq<Hook>): set<Flag> {
    if trace == [] then {} else Ask(Interest(Before(trace)), Last(trace))
  }

  const NO_TIME := Timeval(0, 0)

  function LastTimeout(trace: seq<Hook>): Timeval {
    if trace == [] then NO_TIME
    else if Last(trace).SetTimeout? then Last(trace).tv
    else LastTimeout(Before(trace))
  }

  function Adds(flag: Flag): Hook {
    if flag == Read then AddRead else AddWrite
  }

  function Dels(flag: Flag): Hook {
    if flag == Read then DelRead else DelWrite
  }

  /** Call `i` asked for the direction, and no later one took that back. */
  ghost predicate AskedAt(trace: seq<Hook>, flag: Flag, i: nat)
    requires i < |trace|
  {
    trace[i] == Adds(flag) && forall j :: i < j < |trace| ==> trace[j] != Dels(flag) && trace[j] != Cleanup
  }

  lemma AskedBefore(trace: seq<Hook>, flag: Flag, i: nat)
    requires i + 1 < |trace|
    ensures AskedAt(trace, flag, i) <==>
            AskedAt(Before(trace), flag, i) && Last(trace) != Dels(flag) && Last(trace) != Cleanup
  {
    assert forall j :: 0 <= j < |trace| - 1 ==> Before(trace)[j] == trace[j];
  }

  /** A direction is asked for exactly when it was added and neither removed nor cleaned up since. */
  lemma {:induction false} InterestIff(trace: seq<Hook>, flag: Flag)
    requires flag == Read || flag == Write
    ensures flag in Interest(trace) <==> exists i :: 0 <= i < |trace| && AskedAt(trace, flag, i)
  {
    if trace != [] {
      var past, last := Before(trace), |trace| - 1;
      InterestIff(past, flag);
      assert AskedAt(trace, flag, last) <==> trace[last] == Adds(flag);
      forall i | 0 <= i < last
        ensures AskedAt(trace, flag, i) <==> AskedAt(past, flag, i) && trace[last] != Dels(flag) && trace[last] != Cleanup
      {
        AskedBefore(trace, flag, i);
      }
      if flag in Interest(past) {
        var i :| 0 <= i < |past| && AskedAt(past, flag, i);
        assert AskedAt(trace, flag, i) <==> trace[last] != Dels(flag) && trace[last] != Cleanup;
      }
    }
  }

  predicate Cleaned(trace: seq<Hook>) {
    trace != [] && Last(trace) == Cleanup
  }

  /** Hooks called in a row: none after a cleanup. */
  predicate Script(hooks: seq<Hook>) {
    hooks == [] || Cleanup !in Before(hooks)
  }

  lemma {:induction false} OnlyDirections(trace: seq<Hook>)
    ensures Interest(trace) <= {Read, Write}
  {
    if trace != [] {
      OnlyDirections(Before(trace));
    }
  }

  lemma OneMore(trace: seq<Hook>, h: Hook)
    ensures Interest(trace + [h]) == Ask(Interest(trace), h)
    ensures LastTimeout(trace + [h]) == if h.SetTimeout? then h.tv else LastTimeout(trace)
  {
    assert Before(trace + [h]) == trace;
  }

  /** Hooks are idempotent: asking twice in a row asks once. */
  lemma AskTwice(trace: seq<Hook>, h: Hook)
    ensures Interest(trace + [h] + [h]) == Interest(trace + [h])
    ensures LastTimeout(trace + [h] + [h]) == LastTimeout(trace + [h])
  {
    OneMore(trace, h);
    OneMore(trace + [h], h);
  }

  // ---------- Interest and timeout in plain words ----------

  lemma ReadInterest(trace: seq<Hook>)
    ensures Read in Interest(trace) <==>
            exists i :: 0 <= i < |trace| && trace[i] == AddRead
                        && forall j :: i < j < |trace| ==> trace[j] != DelRead && trace[j] != Cleanup
  {
    InterestIff(trace, Read);
    if i :| 0 <= i < |trace| && AskedAt(trace, Read, i) {
      assert trace[i] == AddRead && forall j :: i < j < |trace| ==> trace[j] != DelRead && trace[j] != Cleanup;
    }
    if i :| 0 <= i < |trace| && trace[i] == AddRead
            && forall j :: i < j < |trace| ==> trace[j] != DelRead && trace[j] != Cleanup {
      assert AskedAt(trace, Read, i);
    }
  }

  lemma WriteInterest(trace: seq<Hook>)
    ensures Write in Interest(trace) <==>
            exists i :: 0 <= i < |trace| && trace[i] == AddWrite
                        && forall j :: i < j < |trace| ==> trace[j] != DelWrite && trace[j] != Cleanup
    ensures Timeout !in Interest(trace) && Persist !in Interest(trace)
  {
    OnlyDirections(trace);
    InterestIff(trace, Write);
    if i :| 0 <= i < |trace| && AskedAt(trace, Write, i) {
      assert trace[i] == AddWrite && forall j :: i < j < |trace| ==> trace[j] != DelWrite && trace[j] != Cleanup;
    }
    if i :| 0 <= i < |trace| && trace[i] == AddWrite
            && forall j :: i < j < |trace| ==> trace[j] != DelWrite && trace[j] != Cleanup {
      assert AskedAt(trace, Write, i);
    }
  }

  /** The last timeout set is the one that counts; before any is set it is zero. */
  lemma {:induction false} LastTimeoutIs(trace: seq<Hook>, i: nat)
    requires i < |trace| && trace[i].SetTimeout? && forall j :: i < j < |trace| ==> !trace[j].SetTimeout?
    ensures LastTimeout(trace) == trace[i].tv
  {
    if i < |trace| - 1 {
      LastTimeoutIs(Before(trace), i);
    }
  }

  lemma {:induction false} NoTimeoutYet(trace: seq<Hook>)
    requires forall h <- trace :: !h.SetTimeout?
    ensures LastTimeout(trace).sec == 0 && LastTimeout(trace).usec == 0
  {
    if trace != [] {
      NoTimeoutYet(Before(trace));
    }
  }

  /** Of hooks in a row only the last can be a cleanup. */
  lemma ScriptIs(hooks: seq<Hook>)
    ensures Script(hooks) <==> forall i :: 0 <= i < |hooks| - 1 ==> hooks[i] != Cleanup
    ensures Cleaned(hooks) <==> hooks != [] && hooks[|hooks| - 1] == Cleanup
    ensures Script(hooks) ==> (Cleaned(hooks) <==> Cleanup in hooks)
  {
    if hooks != [] {
      assert forall i :: 0 <= i < |hooks| - 1 ==> Before(hooks)[i] == hooks[i];
      assert hooks == Before(hooks) + [Last(hooks)];
    }
  }
}
