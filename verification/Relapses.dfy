/** What goes wrong after a rollback, in programs with nothing but blocking receives. */
module Relapses {
  import opened Bytes
  import opened LogModel
  import opened PackFormat
  import opened Replay
  import opened CdLogs
  import opened Wrappers
  import opened WholeRun
  import opened WholeReplay
  import opened LogRollback
  import opened Recital
  import opened Siblings
  import opened OwnRequests
  import opened Relive
  import opened SecondRollback
  import Patterns

  function Got(m: Mpi): seq<Act>
  {
    [Do(Recv(|m.data|), m)]
  }

  function OneOpen(root: CDID, id: CDID, m: Mpi, a: Alloc): seq<Frame>
  {
    [Frame(root, [], a), Frame(id, Got(m), a)]
  }

  lemma {:induction false} OneOpenWhole(root: CDID, id: CDID, m: Mpi, n: Mpi, a: Alloc)
    ensures
      var frames, mores := OneOpen(root, id, m, a), [[], Got(n)];
      && Whole(frames[1..]) == Got(m) && Whole(frames) == [Child(id, Got(m), a)]
      && Onward(frames[1..], mores[1..]) == Got(m) + Got(n) && Onward(frames, mores) == [Child(id, Got(m) + Got(n), a)]
  {
    var frames, mores := OneOpen(root, id, m, a), [[], Got(n)];
    assert frames[1..] == [frames[1]] && mores[1..] == [Got(n)];
    assert [] + [Child(id, Got(m), a)] == [Child(id, Got(m), a)];
    var c := [Child(id, Got(m) + Got(n), a)];
    assert [] + c + [] == c;
  }

  lemma {:induction false} OneOpenNames(root: CDID, id: CDID, m: Mpi, n: Mpi, a: Alloc)
    ensures
      var frames, mores := OneOpen(root, id, m, a), [[], Got(n)];
      && OwnNames(frames) && NewNames(frames, mores) && LogsTwice(frames, mores)
      && LegalActs(Onward(frames, mores)) && LegalActs(Whole(frames)) && LegalActs(Got(m))
  {
    hide FirstLogged;
    var frames, mores := OneOpen(root, id, m, a), [[], Got(n)];
    OneOpenWhole(root, id, m, n, a);
    assert frames[1..] == [frames[1]] && mores[1..] == [Got(n)];
    assert |frames[1..]| == 1;
    LogsOne(Got(m)[0]);
    LogsOne(Got(n)[0]);
    var x, y := Child(id, Got(m), a), Child(id, Got(m) + Got(n), a);
    assert LegalAct(Got(m)[0]) && LegalAct(Got(n)[0]);
    LegalParts(Got(m), Got(n));
    LegalOne(x);
    LegalOne(y);
  }

  /** The first rollback is answered. */
  lemma {:induction false} OneOpenResumes(root: CDID, id: CDID, m: Mpi, a: Alloc)
    ensures
      var frames := OneOpen(root, id, m, a);
      && LegalActs(Whole(frames)) && OpenRun([], frames).Some?
      && var c := Top(RollBack(OpenRun([], frames).value, 0, [a, a]));
      Valid(c.log) && Resumes(c.log, c.kids, frames)
  {
    hide Valid, ValidCd, RollBack, Resumes, Gen;
    var frames, x := OneOpen(root, id, m, a), Child(id, Got(m), a);
    OneOpenWhole(root, id, m, m, a);
    OneOpenNames(root, id, m, m, a);
    BeginValid([], root);
    var p := [] + [Fresh(root)];
    BeginValid(p, id);
    assert RecordRun(p, []) == Some(p);
    assert Got(m)[1..] == [] && frames[1..] == [frames[1]];
    assert RecordRun(p + [Fresh(id)], Got(m)).Some? by { GotRuns(p + [Fresh(id)], m); }
    assert OpenRun(p, frames[1..]).Some?;
    OneChildClean(p, id, m, a);
    SelfContainedReplays(frames, [a, a]);
  }

  lemma {:induction false} OneChildClean(p: seq<Cd>, id: CDID, m: Mpi, a: Alloc)
    requires ValidPath(p)
    ensures
      var acts := [Child(id, Got(m), a)];
      LegalActs(acts) && SelfContained(acts) && Recites(acts, acts) && FirstLogged(acts, id) == 0
  {
    hide Valid, ValidCd, RecordAct;
    var x := Child(id, Got(m), a);
    Patterns.RecvRuns(p, id, m, a);
    Patterns.RecvOutputs(m);
    assert [x][1..] == [] && OwnActs([x], NONE) == Some(NONE);
    assert SameCD(id, id);
    assert LoggedUnder([x][0], id);
    assert FirstLogged([x], id) == 0;
    Patterns.OneRecvRecites(m, m);
    Patterns.NoOwnTrace([x]);
  }

  lemma {:induction false} GotRuns(p: seq<Cd>, m: Mpi)
    requires ValidPath(p)
    ensures LegalActs(Got(m)) && RecordRun(p, Got(m)).Some?
  {
    hide Valid, ValidCd;
    assert LegalAct(Got(m)[0]) && Got(m)[1..] == [];
  }

  lemma {:induction false} RunsOn(c: Cd, root: CDID, id: CDID, m: Mpi, n: Mpi, a: Alloc)
    requires
      var frames := OneOpen(root, id, m, a);
      LegalActs(Whole(frames)) && Ready(c, frames) && ValidPath([c]) && OwnNames(frames)
    requires LegalActs(Onward(OneOpen(root, id, m, a), [[], Got(n)]))
    ensures LiveRun([c], Onward(OneOpen(root, id, m, a), [[], Got(n)])).Some?
  {
    hide MatchKids, Represents, Valid, Logs, OwnTrace, Remaining, Resumes, OwnNames, LiveRun, Gen, LogTop, LiveCall;
    hide Begun;
    var frames, y := OneOpen(root, id, m, a), Child(id, Got(m) + Got(n), a);
    OneOpenWhole(root, id, m, n, a);
    OneOpenNames(root, id, m, n, a);
    PulledReady(c, frames);
    var d := Begun(c, id);
    SamePulled(c, id);
    var rest := frames[1..];
    assert rest == [Frame(id, Got(m), a)];
    FitsBelow([c], d);
    ReplayTop([c], d, rest);
    assert LegalAct(Got(n)[0]);
    LegalOne(Got(n)[0]);
    LegalParts(Got(m), Got(n));
    LiveThen([c] + [d], Got(m), Got(n));
    var p := [c] + [AtEnd(d)];
    OneAct(p, Got(n)[0]);
    var q := LiveCallPast(p, Recv(|n.data|), n);
    assert Gen(q, Recv(|n.data|), n).Some? by { RecvRecords(q, n); }
    OneAct([c], y);
  }

  lemma SamePulled(c: Cd, id: CDID)
    ensures Begun(AtEnd(c), id) == Begun(c, id)
  {
  }

  lemma FitsBelow(p: seq<Cd>, d: Cd)
    requires ValidPath(p) && ValidCd(d)
    ensures ValidPath(p + [d])
  {
  }

  lemma RecvRecords(p: seq<Cd>, m: Mpi)
    requires ValidPath(p)
    ensures Gen(p, Recv(|m.data|), m).Some?
  {
  }

  /**
    A child CD receives `m`; an error rolls the program back to the root. The replay answers `m` from the log,
    flips, and the child receives `n` and completes. A second rollback to the root cannot be answered: the
    record that is found under the child's ID ends with `m`.
   */
  lemma {:induction false} OpenChildReceives(root: CDID, id: CDID, m: Mpi, n: Mpi, a: Alloc)
    ensures
      var frames, acts := OneOpen(root, id, m, a), [Child(id, Got(m) + Got(n), a)];
      && LegalActs(Whole(frames)) && LegalActs(acts) && OpenRun([], frames).Some?
      && var c := Top(RollBack(OpenRun([], frames).value, 0, [a, a]));
      && Valid(c.log) && Resumes(c.log, c.kids, frames) && ValidPath([c]) && LiveRun([c], acts).Some?
      && var r := Top(LiveRun([c], acts).value);
      Valid(ReInit(r.log)) && !Good(ReInit(r.log), r.kids, acts)
  {
    hide OpenRun, RollBack, Valid, Resumes, LiveRun, Good, Whole, LegalActs, OwnNames, NewNames, LogsTwice, Ready;
    var frames, mores := OneOpen(root, id, m, a), [[], Got(n)];
    OneOpenWhole(root, id, m, n, a);
    OneOpenNames(root, id, m, n, a);
    OneOpenResumes(root, id, m, a);
    var c := Top(RollBack(OpenRun([], frames).value, 0, [a, a]));
    var x := RootReady(frames, [a, a]);
    RunsOn(c, root, id, m, n, a);
    StaleRecord(c, frames, mores);
  }

  /**
    A loop that makes its child again for every message, rolled back after the first: when the replay has
    reached its end, the next child finds the first one's record. It is handed the first message instead of
    the one that is waiting, and MPI is not called.
   */
  lemma {:induction false} NextIteration(root: CDID, id: CDID, m: Mpi, n: Mpi, a: Alloc)
    requires |m.data| == |n.data|
    ensures
      var frames, next := [Frame(root, [Child(id, Got(m), a)], a)], Child(id, Got(n), a);
      && LegalActs(Whole(frames)) && LegalAct(next) && OpenRun([], frames).Some?
      && var c := Top(RollBack(OpenRun([], frames).value, 0, [a]));
      && Valid(c.log) && Resumes(c.log, c.kids, frames)
      && var end := Resume(c.log, c.kids, frames).value.0;
      RerunAct(end, c.kids, next) == Some((end, [Payload(m.data)]))
  {
    hide Valid, ValidCd, RollBack, RerunAct, Rerun, Remaining, MatchKids, Represents, OwnTrace, SelfContained, Recites;
    hide RecordAct, GoodKid, Outputs;
    var acts, next := [Child(id, Got(m), a)], Child(id, Got(n), a);
    var frames := [Frame(root, acts, a)];
    BeginValid([], root);
    var p := [] + [Fresh(root)];
    OneChildClean(p, id, m, a);
    Patterns.RecvRuns(p, id, m, a);
    assert acts[1..] == [] && RecordRun(p, acts).Some?;
    SelfContainedReplays(frames, [a]);
    RootShows(frames, [a]);
    var c := Top(RollBack(OpenRun([], frames).value, 0, [a]));
    ShownShape(c, acts);
    ReplayActs(c.log, c.kids, acts);
    assert LegalAct(Got(n)[0]);
    LegalOne(Got(n)[0]);
    GoodMeansKids(c.log, c.kids, acts, 0);
    var end := Resume(c.log, c.kids, frames).value.0;
    assert SameAct(next, acts[0]) by { assert SameAct(Got(n)[0], Got(m)[0]); assert SameCD(id, id); }
    NamesakeAnswers(end, c.kids, next, acts[0]);
    Patterns.RecvOutputs(m);
  }

  // ---- the iteration that was interrupted ----

  /** One iteration is done; the next, under the same ID, got as far as its first receive. */
  function Again(root: CDID, id: CDID, m: Mpi, n: Mpi, k: Mpi, a: Alloc): seq<Frame>
  {
    [Frame(root, [Child(id, Got(m) + Got(n), a)], a), Frame(id, Got(k), a)]
  }

  lemma {:induction false} AgainIs(root: CDID, id: CDID, m: Mpi, n: Mpi, k: Mpi, a: Alloc)
    ensures
      var frames := Again(root, id, m, n, k, a);
      var x, y := Child(id, Got(m) + Got(n), a), Child(id, Got(k), a);
      && Whole(frames) == [x, y] && FirstLogged([x, y], id) == 0 && Innermost(frames) == Got(k)
      && Origin([x, y], frames) == Got(m) + Got(n)
      && Text(OwnTrace(Got(m) + Got(n))) == [m.data, n.data] && |OwnTrace(Got(k))| == 1
  {
    var frames := Again(root, id, m, n, k, a);
    var x, y := Child(id, Got(m) + Got(n), a), Child(id, Got(k), a);
    assert frames[1..] == [frames[1]] && [x] + [y] == [x, y];
    LogsOne(Got(n)[0]);
    LogsAppend(Got(m), Got(n)[0]);
    assert SameCD(id, id);
    assert LoggedUnder([x, y][0], id);
    OneTrace(Got(m)[0]);
    OneTrace(Got(n)[0]);
    OneTrace(Got(k)[0]);
    OwnTraceAppend(Got(m), Got(n));
  }

  lemma {:induction false} AgainRecites(root: CDID, id: CDID, m: Mpi, n: Mpi, k: Mpi, a: Alloc)
    ensures
      var acts := [Child(id, Got(m) + Got(n), a), Child(id, Got(k), a)];
      Recites(acts, acts) <==> k.data == m.data
  {
    hide OwnTrace, Logs, FirstLogged;
    AgainIs(root, id, m, n, k, a);
    var x, y := Child(id, Got(m) + Got(n), a), Child(id, Got(k), a);
    var acts := [x, y];
    Patterns.NoOwnTrace(acts);
    assert forall i :: 0 <= i < |x.body| ==> x.body[i].Do?;
    assert Recites(x.body, x.body) by { FollowsItself(x.body); }
    OneTrace(Got(k)[0]);
    var u, v := [k.data], [m.data, n.data];
    assert Text(OwnTrace(Got(k))) == u;
    HearsAll(v, u);
    assert u <= v <==> u[0] == v[0];
    assert Recites(y.body, x.body) <==> k.data == m.data;
    Patterns.TwoKids(acts);
  }

  lemma {:induction false} AgainRuns(root: CDID, id: CDID, m: Mpi, n: Mpi, k: Mpi, a: Alloc)
    ensures
      var frames := Again(root, id, m, n, k, a);
      LegalActs(Whole(frames)) && SelfContained(Whole(frames)) && OpenRun([], frames).Some?
  {
    hide Valid, ValidCd, Gen, Handover, FirstLogged, Origin;
    AgainIs(root, id, m, n, k, a);
    var frames := Again(root, id, m, n, k, a);
    var x, y := Child(id, Got(m) + Got(n), a), Child(id, Got(k), a);
    assert LegalAct(Got(m)[0]) && LegalAct(Got(n)[0]) && LegalAct(Got(k)[0]);
    LegalParts(Got(m), Got(n));
    LegalOne(Got(k)[0]);
    assert LegalAct(x) && LegalAct(y);
    LegalOne(x);
    LegalOne(y);
    assert [x] + [y] == [x, y];
    LegalParts([x], [y]);
    BeginValid([], root);
    var p := [] + [Fresh(root)];
    BeginValid(p, id);
    var q := p + [Fresh(id)];
    RecvTwice(q, m, n);
    assert [x][1..] == [] && RecordRun(p, [x]).Some?;
    var r := RecordRun(p, [x]).value;
    BeginValid(r, id);
    GotRuns(r + [Fresh(id)], k);
    assert frames[1..] == [frames[1]] && OpenRun(r, frames[1..]).Some?;
    GotIsOwn(m, n);
    GotIsOwn(k, k);
    TwoOwn(x, y);
  }

  lemma {:induction false} TwoOwn(x: Act, y: Act)
    requires LegalAct(x) && LegalAct(y) && LegalActs([x, y])
    requires OwnAct(x, NONE) == Some(NONE) && OwnAct(y, NONE) == Some(NONE)
    ensures OwnActs([x, y], NONE) == Some(NONE)
  {
    hide OwnAct;
    var acts := [x, y];
    assert acts[1..] == [y] && [y][1..] == [];
    assert LegalActs([y]);
    assert OwnActs([], NONE) == Some(NONE);
    assert OwnActs([y], NONE) == OwnActs([y][1..], NONE);
    assert OwnActs(acts, NONE) == OwnActs(acts[1..], NONE);
  }

  lemma {:induction false} RecvTwice(p: seq<Cd>, m: Mpi, n: Mpi)
    requires ValidPath(p)
    ensures LegalActs(Got(m) + Got(n)) && RecordRun(p, Got(m) + Got(n)).Some?
  {
    hide ValidPath, RecordRun;
    GotRuns(p, m);
    GotRuns(RecordRun(p, Got(m)).value, n);
    LegalParts(Got(m), Got(n));
    RunAppend(p, Got(m), Got(n));
  }

  lemma {:induction false} GotIsOwn(m: Mpi, n: Mpi)
    ensures LegalActs(Got(m)) && OwnActs(Got(m), NONE) == Some(NONE)
    ensures LegalActs(Got(m) + Got(n)) && OwnActs(Got(m) + Got(n), NONE) == Some(NONE)
  {
    var x, y := Got(m)[0], Got(n)[0];
    assert LegalAct(x) && LegalAct(y);
    assert Strike([], {}) == Some({});
    assert OwnCall(x.call, m, NONE) == Some(NONE) && OwnCall(y.call, n, NONE) == Some(NONE);
    var z := Got(m) + Got(n);
    assert Got(m)[1..] == [] && z[0] == x && z[1..] == [y] && [y][1..] == [];
    assert OwnActs([y], NONE) == Some(NONE);
  }

  /**
    A loop that makes its child again, interrupted inside the second iteration, which had received `k`. It is
    answered up to there exactly if the first iteration had received the same. Then its next receive, which had
    not happened before the error, is answered too: with the second message of the first iteration.
   */
  lemma {:induction false} OpenNamesake(root: CDID, id: CDID, m: Mpi, n: Mpi, k: Mpi, a: Alloc)
    ensures
      var frames := Again(root, id, m, n, k, a);
      && LegalActs(Whole(frames)) && OpenRun([], frames).Some?
      && var c := Top(RollBack(OpenRun([], frames).value, 0, [a, a]));
      && Valid(c.log) && (Resumes(c.log, c.kids, frames) <==> k.data == m.data)
      && (k.data == m.data ==>
            var r := Read(Resume(c.log, c.kids, frames).value.0, Recv(|n.data|));
            r.Replayed? && r.out == Payload(n.data))
  {
    hide Valid, RollBack, Resumes, OpenRun, LegalActs, SelfContained, Recites, Distinct, OwnTrace, Text, Read, Whole;
    hide Origin;
    hide Remaining;
    var frames := Again(root, id, m, n, k, a);
    AgainIs(root, id, m, n, k, a);
    AgainRuns(root, id, m, n, k, a);
    AgainRecites(root, id, m, n, k, a);
    SelfContainedReplays(frames, [a, a]);
    RootRollback(frames, [a, a]);
    assert [m.data, n.data][1] == n.data;
  }
}
