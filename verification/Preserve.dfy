/** Counting preservations and restorations of one CD, over any run with rollbacks. */
module Preserve {
  import opened Bytes

  datatype Mode = Execution | Reexecution | Suspension

  datatype State = State(mode: Mode, preserved: nat, restored: nat)

  /** Within one Begin and Complete: a preserve call, for output or not, or a rollback to this CD. */
  datatype Step = Call(output: bool) | Rollback

  const BEGUN := State(Execution, 0, 0)

  /** None: one of the two error messages, each of which ends the run. */
  function Next(s: State, t: Step): Option<State>
  {
    match t
    case Rollback => Some(s.(mode := Reexecution, restored := 0))
    case Call(output) =>
      if s.mode == Suspension then None
      else if output then Some(s)
      else if s.mode == Execution then Some(s.(preserved := s.preserved + 1))
      else if s.restored >= s.preserved then None
      else if s.restored + 1 == s.preserved then Some(s.(mode := Execution, restored := 0))
      else Some(s.(restored := s.restored + 1))
  }

  class Counter {
    var mode: Mode
    var preserved: nat
    var restored: nat

    ghost function Value(): State
      reads this
    {
      State(mode, preserved, restored)
    }

    /** After CD::Begin. */
    constructor ()
      ensures Value() == State(Execution, 0, 0)
    {
      mode, preserved, restored := Execution, 0, 0;
    }

    /** CD::Preserve; `restores` tells whether the data came back from the directory. */
    method Preserve(output: bool) returns (ok: bool, restores: bool)
      modifies this
      ensures ok == Next(old(Value()), Call(output)).Some?
      ensures Value() == if ok then Next(old(Value()), Call(output)).value else old(Value())
      ensures restores <==> ok && !output && old(mode) == Reexecution
      // fails after Complete, and when there is nothing left to restore
      ensures !ok <==> old(mode) == Suspension || (!output && old(mode) == Reexecution && old(restored >= preserved))
      ensures !ok || output ==> mode == old(mode) && preserved == old(preserved) && restored == old(restored)
      ensures
        ok && !output && old(mode) == Execution ==>
          mode == Execution && preserved == old(preserved) + 1 && restored == old(restored)
      ensures
        restores ==>
          && preserved == old(preserved)
          && if old(restored + 1 == preserved) then mode == Execution && restored == 0
             else mode == Reexecution && restored == old(restored) + 1
    {
      ok, restores := true, false;
      if mode == Suspension {
        ok := false;
      } else if output {
      } else if mode == Execution {
        preserved := preserved + 1;
      } else if restored < preserved {
        restores := true;
        restored := restored + 1;
        if restored == preserved {
          mode := Execution;
          restored := 0;
        }
      } else {
        ok := false;
      }
    }

    method RollBack()
      modifies this
      ensures Value() == Next(old(Value()), Rollback).value
    {
      mode, restored := Reexecution, 0;
    }

    /** CD::DeleteEntryDirectory and the mode at the end of CD::Complete. */
    method Complete()
      modifies this
      ensures Value() == State(Suspension, 0, 0)
    {
      mode, preserved, restored := Suspension, 0, 0;
    }
  }

  // ---- whole runs ----

  function Run(s: State, ts: seq<Step>): Option<State>
    decreases |ts|
  {
    if ts == [] then Some(s)
    else
      var before :- Run(s, ts[..|ts| - 1]);
      Next(before, ts[|ts| - 1])
  }

  /** Calls that are not for output since the last rollback. */
  function Latest(ts: seq<Step>): nat
    decreases |ts|
  {
    if ts == [] then 0
    else
      var n := Latest(ts[..|ts| - 1]);
      match ts[|ts| - 1]
      case Rollback => 0
      case Call(output) => if output then n else n + 1
  }

  /** The most of such calls between two rollbacks. */
  function Most(ts: seq<Step>): nat
    decreases |ts|
  {
    if ts == [] then 0
    else
      var n := Most(ts[..|ts| - 1]);
      if Latest(ts) > n then Latest(ts) else n
  }

  predicate RolledBack(ts: seq<Step>)
  {
    exists i :: 0 <= i < |ts| && ts[i].Rollback?
  }

  /**
    Any run: what has been preserved is the longest stretch between rollbacks; the latest stretch restores
    until it is as long as that, and then preserves again.
   */
  lemma {:induction false} RunCounts(ts: seq<Step>)
    requires Run(BEGUN, ts).Some?
    ensures
      var s := Run(BEGUN, ts).value;
      && s.preserved == Most(ts)
      && s.mode == (if RolledBack(ts) && (Latest(ts) < Most(ts) || Most(ts) == 0) then Reexecution else Execution)
      && s.restored == (if s.mode == Reexecution then Latest(ts) else 0)
      && s.restored <= s.preserved && Latest(ts) <= Most(ts)
      && (RolledBack(ts) || Latest(ts) == Most(ts))
    decreases |ts|
  {
    if ts != [] {
      var n := |ts| - 1;
      RunCounts(ts[..n]);
      assert RolledBack(ts) <==> RolledBack(ts[..n]) || ts[n].Rollback?;
    }
  }

  /** Once something has been preserved, no later call or rollback can lead to the error. */
  lemma {:induction false} NoErrorLater(ts: seq<Step>, us: seq<Step>)
    requires Run(BEGUN, ts).Some? && Most(ts) > 0
    ensures Run(BEGUN, ts + us).Some? && Most(ts + us) >= Most(ts)
    decreases |us|
  {
    if us == [] {
      assert ts + us == ts;
    } else {
      var n := |us| - 1;
      assert (ts + us)[..|ts + us| - 1] == ts + us[..n];
      NoErrorLater(ts, us[..n]);
      RunCounts(ts + us[..n]);
    }
  }

  /** After a rollback exactly as many calls restore as had been preserved; later ones preserve. */
  lemma {:induction false} RestoresExactly(ts: seq<Step>, calls: seq<Step>)
    requires Run(BEGUN, ts).Some? && Most(ts) > 0
    requires forall i :: 0 <= i < |calls| ==> calls[i].Call?
    ensures Run(BEGUN, ts + [Rollback] + calls).Some?
    ensures Run(BEGUN, ts + [Rollback] + calls).value.mode == Reexecution <==> Latest(calls) < Most(ts)
  {
    var us := ts + [Rollback] + calls;
    assert us == ts + ([Rollback] + calls);
    NoErrorLater(ts, [Rollback] + calls);
    RunCounts(us);
    assert us[|ts|].Rollback?;
    StretchAfter(ts, calls);
  }

  lemma {:induction false} StretchAfter(ts: seq<Step>, calls: seq<Step>)
    requires forall i :: 0 <= i < |calls| ==> calls[i].Call?
    ensures Latest(ts + [Rollback] + calls) == Latest(calls)
    ensures Most(ts + [Rollback] + calls) == if Latest(calls) > Most(ts) then Latest(calls) else Most(ts)
    decreases |calls|
  {
    var us := ts + [Rollback] + calls;
    if calls == [] {
      assert us == ts + [Rollback] && us[..|us| - 1] == ts;
    } else {
      var n := |calls| - 1;
      StretchAfter(ts, calls[..n]);
      assert us[..|us| - 1] == ts + [Rollback] + calls[..n];
    }
  }

  /** The run ends in the error message exactly if the first call that is not for output follows a rollback. */
  lemma {:induction false} ErrorExactly(ts: seq<Step>)
    ensures Run(BEGUN, ts).None? <==>
            exists k :: 0 <= k < |ts| && ts[k] == Call(false) && Most(ts[..k]) == 0 && RolledBack(ts[..k])
    decreases |ts|
  {
    if ts != [] {
      var n := |ts| - 1;
      var us := ts[..n];
      ErrorExactly(us);
      assert forall k :: 0 <= k < n ==> us[..k] == ts[..k];
      if Run(BEGUN, us).Some? {
        RunCounts(us);
      }
    }
  }
}
