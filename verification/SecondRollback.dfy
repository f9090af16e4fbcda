/**
  A second rollback to the root. After the first one the program was answered from the logs up to the
  interruption, flipped back to recording and ran on. The CDs that were open at the interruption had left
  their records with the root by then; those that log again leave a second record behind the first.
 */
module SecondRollback {
  import opened Bytes
  import opened LogModel
  import opened PackFormat
  import opened Replay
  import opened CdLogs
  import opened Wrappers
  import opened WholeRun
  import opened WholeReplay
  import opened LogRollback
  import opened Settled
  import opened Moved
  import opened Twins
  import opened Relive

  /** What a CD that was open at the interruption did before it went on: its open child, if any, ran to its end. */
  function Before(frames: seq<Frame>, mores: seq<seq<Act>>): seq<Act>
    requires 0 < |frames| == |mores|
    decreases |frames|, 0
  {
    if |frames| == 1 then frames[0].done
    else frames[0].done + [Child(frames[1].id, Onward(frames[1..], mores[1..]), frames[1].alloc)]
  }

  /** The whole run, with `mores[i]` done by the i-th open CD after the interruption. */
  function Onward(frames: seq<Frame>, mores: seq<seq<Act>>): seq<Act>
    requires 0 < |frames| == |mores|
    decreases |frames|, 1
  {
    Before(frames, mores) + mores[0]
  }

  /** Whether anything is logged in these CDs after the interruption. */
  predicate LogsLater(frames: seq<Frame>, mores: seq<seq<Act>>)
    requires 0 < |frames| == |mores|
    decreases |frames|
  {
    Logs(mores[0]) || (|frames| > 1 && LogsLater(frames[1..], mores[1..]))
  }

  /** The CD open below the root had logged something when the error struck, and logs again before it ends. */
  predicate LogsTwice(frames: seq<Frame>, mores: seq<seq<Act>>)
    requires 0 < |frames| == |mores|
  {
    |frames| > 1 && Logs(Whole(frames[1..])) && LogsLater(frames[1..], mores[1..])
  }

  /** No CD that is begun before its parent is back to recording has the ID of an earlier one that logged. */
  predicate NewNames(frames: seq<Frame>, mores: seq<seq<Act>>)
    requires 0 < |frames| == |mores|
    decreases |frames|
  {
    Unseen(Whole(frames), mores[0]) && (|frames| > 1 ==> NewNames(frames[1..], mores[1..]))
  }

  predicate Unseen(past: seq<Act>, acts: seq<Act>)
  {
    forall i :: 0 <= i < |acts| && acts[i].Child? && !Logs(acts[..i]) ==> FirstLogged(past, acts[i].id) == |past|
  }

  // ---- pieces of the run ----

  lemma LegalOne(a: Act)
    ensures LegalActs([a]) <==> LegalAct(a)
  {
    assert [a][0] == a;
  }

  lemma {:induction false} LegalOnward(frames: seq<Frame>, mores: seq<seq<Act>>)
    requires 0 < |frames| == |mores| && LegalActs(Onward(frames, mores))
    ensures LegalActs(Before(frames, mores)) && LegalActs(frames[0].done) && LegalActs(mores[0])
    ensures LegalActs(Whole(frames))
    ensures
      |frames| > 1 ==>
        && LegalActs(Onward(frames[1..], mores[1..])) && LegalActs(Whole(frames[1..]))
        && LegalAct(Child(frames[1].id, Onward(frames[1..], mores[1..]), frames[1].alloc))
        && LegalAct(Child(frames[1].id, Whole(frames[1..]), frames[1].alloc))
    decreases |frames|
  {
    hide LegalActs;
    LegalParts(Before(frames, mores), mores[0]);
    if |frames| > 1 {
      var a := Child(frames[1].id, Onward(frames[1..], mores[1..]), frames[1].alloc);
      var b := Child(frames[1].id, Whole(frames[1..]), frames[1].alloc);
      LegalParts(frames[0].done, [a]);
      LegalOne(a);
      LegalBody(a);
      LegalOnward(frames[1..], mores[1..]);
      LegalOne(b);
      LegalParts(frames[0].done, [b]);
    }
  }

  /** The CD as it is when its replay starts. */
  ghost predicate Ready(c: Cd, frames: seq<Frame>)
    requires frames != [] && LegalActs(Whole(frames))
  {
    && Shows(c, OwnTrace(Whole(frames)), Whole(frames))
    && c.log.mode == ReplayLog && c.log.cursor == 0
    && Valid(c.log) && Resumes(c.log, c.kids, frames)
  }

  /** And when it has been read to its end. */
  function AtEnd(c: Cd): Cd
  {
    c.(log := c.log.(cursor := |c.log.table|))
  }

  lemma {:induction false} OwnTraceWhole(frames: seq<Frame>)
    requires frames != []
    ensures OwnTrace(Whole(frames)) == OwnTrace(frames[0].done)
  {
    hide OwnTrace;
    if |frames| > 1 {
      var a := Child(frames[1].id, Whole(frames[1..]), frames[1].alloc);
      OwnTraceAppend(frames[0].done, [a]);
      NoTraceOfChild(a);
      assert OwnTrace(frames[0].done) + [] == OwnTrace(frames[0].done);
    }
  }

  lemma {:induction false} ReplayTop(p: seq<Cd>, c: Cd, frames: seq<Frame>)
    requires frames != [] && LegalActs(Whole(frames)) && LegalActs(frames[0].done) && Ready(c, frames)
    requires ValidPath(p + [c])
    ensures LiveRun(p + [c], frames[0].done) == Some(p + [AtEnd(c)])
    ensures Valid(AtEnd(c).log) && Remaining(AtEnd(c).log) == []
  {
    hide MatchKids, Ahead, Tiled, Logs, OwnTrace, Rerun, LiveRun, Outputs, LegalActs, Whole, AgreesAll;
    var done := frames[0].done;
    ShownShape(c, Whole(frames));
    OwnTraceWhole(frames);
    ResumeSplits(c.log, c.kids, frames);
    ReplayActs(c.log, c.kids, done);
    MatchIsSound(c.kids, Whole(frames));
    LiveReplays(p + [c], done);
    ReadToTheEnd(c.log, c.kids, done);
    assert WithTop(p + [c], AtEnd(c)) == p + [AtEnd(c)];
  }

  /** The record an open CD finds is its own. */
  lemma {:induction false} PulledShows(kids: seq<Tree>, frames: seq<Frame>)
    requires |frames| > 1 && OwnNames(frames) && MatchKids(kids, Whole(frames))
    ensures
      var start, acts := Pulled(kids, frames[1].id), Whole(frames[1..]);
      && Represents(start.0, OwnTrace(acts)) && MatchKids(start.1, acts)
      && start.0.mode == ReplayLog && start.0.cursor == 0
  {
    hide Logs, MatchKids, Represents, FirstLogged, OwnTrace;
    var done, acts := frames[0].done, Whole(frames[1..]);
    var a := Child(frames[1].id, acts, frames[1].alloc);
    FoundKid(kids, Whole(frames), a.id);
    FirstLoggedPush(done, a, a.id);
    if FirstTree(kids, a.id) == |kids| {
      OwnTraceLogs(acts);
      NothingMatches(acts);
      NothingRepresents();
    } else {
      assert Whole(frames)[|done|] == a;
    }
  }

  lemma NothingRepresents()
    ensures Represents(NOTHING, [])
  {
  }

  lemma {:induction false} PulledReady(c: Cd, frames: seq<Frame>)
    requires |frames| > 1 && LegalActs(Whole(frames)) && LegalActs(Whole(frames[1..])) && LegalActs(frames[0].done)
    requires Ready(c, frames) && OwnNames(frames)
    ensures Ready(Begun(AtEnd(c), frames[1].id), frames[1..])
    ensures !Begun(AtEnd(c), frames[1].id).log.generated && Begun(AtEnd(c), frames[1].id).incomplete == []
  {
    hide MatchKids, Represents, Valid, Logs, OwnTrace, Resumes, LegalActs, FirstLogged, Pulled, Whole, OwnNames;
    ResumeSplits(c.log, c.kids, frames);
    PulledShows(c.kids, frames);
    MatchIsSound(c.kids, Whole(frames));
    PulledSound(c.kids, frames[1].id);
  }

  // ---- nothing more is logged ----

  lemma {:induction false} QuietRun(p: seq<Cd>, acts: seq<Act>)
    requires ValidPath(p) && LegalActs(acts) && !Logs(acts)
    ensures RecordRun(p, acts) == Some(p)
    decreases acts
  {
    hide ValidCd, Logs, LegalAct;
    if acts != [] {
      LegalSplit(acts);
      LogsFront(acts);
      LogsOne(acts[0]);
      var a := acts[0];
      LegalBody(a);
      FreshValid(p, a.id);
      QuietRun(p + [Fresh(a.id)], a.body);
      NothingPushed(p, Fresh(a.id), a.alloc);
      QuietRun(p, acts[1..]);
    }
  }

  /** A run that only closes what was open leaves what the run up to the interruption left. */
  lemma {:induction false} QuietRecord(p: seq<Cd>, frames: seq<Frame>, mores: seq<seq<Act>>)
    requires 0 < |frames| == |mores| && LegalActs(Onward(frames, mores)) && ValidPath(p) && !LogsLater(frames, mores)
    ensures LegalActs(Whole(frames)) && RecordRun(p, Onward(frames, mores)) == RecordRun(p, Whole(frames))
    decreases |frames|, 1
  {
    hide ValidPath, Logs, LegalActs, RecordRun;
    LegalOnward(frames, mores);
    QuietBefore(p, frames, mores);
    RunAppend(p, Before(frames, mores), mores[0]);
    var q := RecordRun(p, Before(frames, mores));
    if q.Some? {
      QuietRun(q.value, mores[0]);
    }
  }

  lemma {:induction false} QuietBefore(p: seq<Cd>, frames: seq<Frame>, mores: seq<seq<Act>>)
    requires 0 < |frames| == |mores| && LegalActs(Onward(frames, mores)) && ValidPath(p)
    requires |frames| > 1 ==> !LogsLater(frames[1..], mores[1..])
    ensures LegalActs(Before(frames, mores)) && LegalActs(Whole(frames))
    ensures RecordRun(p, Before(frames, mores)) == RecordRun(p, Whole(frames))
    decreases |frames|, 0
  {
    hide ValidPath, Logs, LegalActs, RecordRun;
    LegalOnward(frames, mores);
    if |frames| > 1 {
      var done, rest := frames[0].done, frames[1..];
      var a := Child(frames[1].id, Onward(rest, mores[1..]), frames[1].alloc);
      var b := Child(frames[1].id, Whole(rest), frames[1].alloc);
      RunThen(p, done, a);
      RunThen(p, done, b);
      var q := RecordRun(p, done);
      if q.Some? {
        FreshValid(q.value, a.id);
        QuietRecord(q.value + [Fresh(a.id)], rest, mores[1..]);
        assert RecordAct(q.value, a) == RecordAct(q.value, b);
      }
    }
  }

  /** A child under a new ID that logs nothing is answered in any replay. */
  lemma {:induction false} NewcomerReplays(kids: seq<Tree>, a: Act)
    requires a.Child? && LegalAct(a) && FirstTree(kids, a.id) == |kids|
    ensures GoodKid(kids, a) <==> !Logs(a.body)
  {
    hide Logs, FirstTree, Good, LegalActs;
    LegalBody(a);
    NothingReplays(a.body);
  }

  lemma {:induction false} QuietOwn(frames: seq<Frame>, mores: seq<seq<Act>>)
    requires 0 < |frames| == |mores| && !Logs(mores[0])
    ensures OwnTrace(Onward(frames, mores)) == OwnTrace(Whole(frames))
    ensures OwnCallsPlay(Onward(frames, mores)) <==> OwnCallsPlay(Whole(frames))
  {
    hide OwnTrace, Logs;
    OwnTraceWhole(frames);
    OwnTraceLogs(mores[0]);
    var done, acts, past := frames[0].done, Onward(frames, mores), Whole(frames);
    OwnTraceBefore(frames, mores);
    OwnTraceAppend(Before(frames, mores), mores[0]);
    assert OwnTrace(done) + [] == OwnTrace(done);
    forall i | 0 <= i < |mores[0]|
      ensures mores[0][i].Child?
    {
      NotLoggedAt(mores[0], i);
    }
    PlaysLike(done, acts);
    PlaysLike(done, past);
  }

  lemma {:induction false} PlaysLike(x: seq<Act>, y: seq<Act>)
    requires x <= y && forall i :: |x| <= i < |y| ==> y[i].Child?
    ensures OwnCallsPlay(x) <==> OwnCallsPlay(y)
  {
    if OwnCallsPlay(y) {
      forall i | 0 <= i < |x| && x[i].Do?
        ensures !Reissued(x[i].call)
      {
        assert y[i] == x[i];
      }
    }
  }

  lemma {:induction false} OwnTraceBefore(frames: seq<Frame>, mores: seq<seq<Act>>)
    requires 0 < |frames| == |mores|
    ensures OwnTrace(Before(frames, mores)) == OwnTrace(frames[0].done)
  {
    hide OwnTrace;
    if |frames| > 1 {
      var a := Child(frames[1].id, Onward(frames[1..], mores[1..]), frames[1].alloc);
      OwnTraceAppend(frames[0].done, [a]);
      NoTraceOfChild(a);
      assert OwnTrace(frames[0].done) + [] == OwnTrace(frames[0].done);
    }
  }

  /** Then the log up to the interruption answers the whole run. */
  lemma {:induction false} QuietExtends(l: Log, kids: seq<Tree>, frames: seq<Frame>, mores: seq<seq<Act>>)
    requires 0 < |frames| == |mores| && LegalActs(Onward(frames, mores)) && LegalActs(Whole(frames))
    requires OwnNames(frames) && NewNames(frames, mores) && !LogsLater(frames, mores)
    requires Valid(l) && l.mode == ReplayLog && AgreesAll(Remaining(l), OwnTrace(Whole(frames)))
    requires MatchKids(kids, Whole(frames)) && Good(l, kids, Whole(frames))
    ensures Good(l, kids, Onward(frames, mores))
    decreases |frames|
  {
    hide Valid, Remaining, MatchKids, OwnTrace, AgreesAll, DeliveredAll, Good, Logs, FirstLogged, GoodKid, LegalAct;
    hide Rerun;
    hide OwnCallsPlay;
    var acts, past, done := Onward(frames, mores), Whole(frames), frames[0].done;
    LegalOnward(frames, mores);
    QuietOwn(frames, mores);
    ReplayActs(l, kids, past);
    ReplayActs(l, kids, acts);
    forall i | 0 <= i < |acts| && acts[i].Child?
      ensures GoodKid(kids, acts[i])
    {
      if i < |done| {
        assert acts[i] == past[i];
      } else if i < |Before(frames, mores)| {
        assert acts[i] == Child(frames[1].id, Onward(frames[1..], mores[1..]), frames[1].alloc);
        assert past[i] == Child(frames[1].id, Whole(frames[1..]), frames[1].alloc);
        PulledShape(kids, frames);
        var start := Pulled(kids, frames[1].id);
        assert Good(start.0, start.1, Whole(frames[1..])) by { GoodKidMeans(kids, past[i]); }
        QuietExtends(start.0, start.1, frames[1..], mores[1..]);
        GoodKidMeans(kids, acts[i]);
      } else {
        var j := i - |Before(frames, mores)|;
        assert acts[i] == mores[0][j];
        NotLoggedAt(mores[0], j);
        QuietPrefix(mores[0], j);
        FoundKid(kids, past, acts[i].id);
        NewcomerReplays(kids, acts[i]);
      }
    }
  }

  lemma GoodKidMeans(kids: seq<Tree>, a: Act)
    requires a.Child? && LegalAct(a)
    ensures LegalActs(a.body)
    ensures
      var start := Pulled(kids, a.id);
      GoodKid(kids, a) <==> Valid(start.0) && Good(start.0, start.1, a.body)
  {
  }

  lemma {:induction false} QuietPrefix(acts: seq<Act>, i: nat)
    requires !Logs(acts) && i <= |acts|
    ensures !Logs(acts[..i])
    decreases |acts|
  {
    if i < |acts| {
      assert acts[..|acts| - 1][..i] == acts[..i];
      QuietPrefix(acts[..|acts| - 1], i);
    } else {
      assert acts[..i] == acts;
    }
  }

  // ---- as in a run that never failed ----

  lemma {:induction false} UnseenIsUnnamed(kids: seq<Tree>, past: seq<Act>, acts: seq<Act>)
    requires MatchKids(kids, past) && Unseen(past, acts)
    ensures Unnamed(kids, acts)
  {
    hide MatchKids, Logs, FirstTree, FirstLogged;
    forall i | 0 <= i < |acts| && acts[i].Child? && !Logs(acts[..i])
      ensures FirstTree(kids, acts[i].id) == |kids|
    {
      FoundKid(kids, past, acts[i].id);
    }
  }

  /** From a replay that has reached the end of the log on, the run is recorded as if it had not failed. */
  lemma {:induction false} Rejoin(root: seq<Cd>, x: Cd, c: Cd, pre: seq<Act>, later: seq<Act>)
    requires ValidPath(root) && ValidPath([c]) && ValidPath([x]) && ValidPath([AtEnd(c)])
    requires LegalActs(pre) && LegalActs(later) && LegalActs(pre + later)
    requires RecordRun(root, pre) == Some([x]) && Twin(AtEnd(c), x)
    requires LiveRun([c], pre) == Some([AtEnd(c)]) && Past(AtEnd(c), later)
    ensures TwinResults(LiveRun([c], pre + later), RecordRun(root, pre + later))
  {
    hide ValidPath, LegalActs, LiveRun, RecordRun, Past;
    LiveThen([c], pre, later);
    RunAppend(root, pre, later);
    var p := [AtEnd(c)];
    LiveAhead(p, later);
    RunTwins(p, [x], later);
    TwinsOfTwins(LiveRun(p, later), RecordRun(p, later), RecordRun([x], later));
  }

  /** The acts after the replay, if nothing was logged below the root before the interruption. */
  function Later(frames: seq<Frame>, mores: seq<seq<Act>>): (r: seq<Act>)
    requires 0 < |frames| == |mores|
  {
    if |frames| == 1 then mores[0]
    else [Child(frames[1].id, Onward(frames[1..], mores[1..]), frames[1].alloc)] + mores[0]
  }

  lemma {:induction false} LaterUnseen(frames: seq<Frame>, mores: seq<seq<Act>>)
    requires 0 < |frames| == |mores| && OwnNames(frames) && NewNames(frames, mores)
    requires |frames| > 1 ==> !Logs(Whole(frames[1..]))
    ensures Unseen(Whole(frames), Later(frames, mores))
    ensures Onward(frames, mores) == frames[0].done + Later(frames, mores)
  {
    hide Logs, FirstLogged;
    var later, past := Later(frames, mores), Whole(frames);
    if |frames| > 1 {
      var b := Child(frames[1].id, Whole(frames[1..]), frames[1].alloc);
      FirstLoggedPush(frames[0].done, b, b.id);
      forall i | 0 <= i < |later| && later[i].Child? && !Logs(later[..i])
        ensures FirstLogged(past, later[i].id) == |past|
      {
        if i > 0 {
          LogsFront(later[..i]);
          assert later[..i][1..] == mores[0][..i - 1];
          assert later[i] == mores[0][i - 1];
        }
      }
    }
  }

  lemma {:induction false} FlatRecord(p: seq<Cd>, frames: seq<Frame>)
    requires frames != [] && LegalActs(Whole(frames)) && ValidPath(p)
    requires |frames| > 1 ==> !Logs(Whole(frames[1..]))
    ensures LegalActs(frames[0].done) && RecordRun(p, frames[0].done) == RecordRun(p, Whole(frames))
  {
    hide ValidPath, Logs, RecordRun, LegalActs;
    LegalFrames(frames);
    if |frames| > 1 {
      var b := Child(frames[1].id, Whole(frames[1..]), frames[1].alloc);
      LegalOne(b);
      LegalParts(frames[0].done, [b]);
      RunAppend(p, frames[0].done, [b]);
      LogsOne(b);
      var q := RecordRun(p, frames[0].done);
      if q.Some? {
        QuietRun(q.value, [b]);
      }
    }
  }

  /** The open CD below the root only closes what was open: the root is left as it was. */
  lemma {:induction false} QuietChain(c: Cd, frames: seq<Frame>, mores: seq<seq<Act>>)
    requires 1 < |frames| == |mores| && LegalActs(Onward(frames, mores)) && LegalActs(Whole(frames))
    requires Ready(c, frames) && OwnNames(frames) && NewNames(frames, mores) && ValidPath([c])
    requires !LogsLater(frames[1..], mores[1..])
    ensures LegalActs(Before(frames, mores)) && LiveRun([c], Before(frames, mores)) == Some([AtEnd(c)])
  {
    hide MatchKids, Represents, Valid, Logs, OwnTrace, LegalActs, FirstLogged, LiveRun, AgreesAll, Remaining, Rerun;
    hide Resumes;
    hide RerunAct, Whole, OwnNames, NewNames, LogsLater;
    LegalOnward(frames, mores);
    var a := Child(frames[1].id, Onward(frames[1..], mores[1..]), frames[1].alloc);
    var e := AtEnd(c);
    assert [] + [c] == [c] && [] + [e] == [e];
    ReplayTop([], c, frames);
    PulledReady(c, frames);
    var d := Begun(e, a.id);
    assert OwnNames(frames[1..]) && NewNames(frames[1..], mores[1..]) by { DownOne(frames, mores); }
    ReadyGood(d, frames[1..]);
    QuietExtends(d.log, d.kids, frames[1..], mores[1..]);
    assert GoodKid(e.kids, a) by { GoodKidMeans(e.kids, a); }
    GoodKidIs(e.log, e.kids, a);
    MatchIsSound(c.kids, Whole(frames));
    LiveActReplays([e], a);
    assert WithTop([e], e.(log := e.log)) == [e];
    LegalOne(a);
    LiveThen([c], frames[0].done, [a]);
    OneAct([e], a);
  }

  lemma DownOne(frames: seq<Frame>, mores: seq<seq<Act>>)
    requires 1 < |frames| == |mores| && OwnNames(frames) && NewNames(frames, mores)
    ensures OwnNames(frames[1..]) && NewNames(frames[1..], mores[1..])
  {
  }

  lemma {:induction false} ReadyGood(c: Cd, frames: seq<Frame>)
    requires frames != [] && LegalActs(Whole(frames)) && Ready(c, frames)
    ensures AgreesAll(Remaining(c.log), OwnTrace(Whole(frames))) && MatchKids(c.kids, Whole(frames))
    ensures Good(c.log, c.kids, Whole(frames))
  {
    hide MatchKids, Ahead, Tiled, Logs, OwnTrace, LegalActs, AgreesAll, Rerun, Resume, Whole;
    ShownShape(c, Whole(frames));
    ResumeIsReplay(c.log, c.kids, frames);
  }

  /**
    Unless the CD open below the root logged both before and after the interruption: after the replay and
    whatever followed, the root is as in a run that never failed, but for the cursor and the mode.
   */
  lemma {:induction false} NeverFailed(x: Cd, c: Cd, frames: seq<Frame>, mores: seq<seq<Act>>)
    requires 0 < |frames| == |mores| && LegalActs(Onward(frames, mores)) && LegalActs(Whole(frames))
    requires ValidPath([Fresh(frames[0].id)]) && RecordRun([Fresh(frames[0].id)], Whole(frames)) == Some([x])
    requires c == x.(log := ReInit(x.log)) && Ready(c, frames) && OwnNames(frames) && NewNames(frames, mores)
    requires !LogsTwice(frames, mores)
    ensures ValidPath([c])
    ensures TwinResults(LiveRun([c], Onward(frames, mores)), RecordRun([Fresh(frames[0].id)], Onward(frames, mores)))
  {
    hide MatchKids, Represents, Valid, Logs, OwnTrace, LegalActs, FirstLogged, LiveRun, RecordRun, Remaining, Resumes;
    hide Whole, OwnNames, LogsLater, Before;
    var root, e := [Fresh(frames[0].id)], AtEnd(c);
    LegalOnward(frames, mores);
    assert ValidCd(c);
    assert [] + [c] == [c] && [] + [e] == [e];
    ReplayTop([], c, frames);
    if |frames| > 1 && Logs(Whole(frames[1..])) {
      QuietChain(c, frames, mores);
      QuietBefore(root, frames, mores);
      UnseenIsUnnamed(c.kids, Whole(frames), mores[0]);
      Rejoin(root, x, c, Before(frames, mores), mores[0]);
    } else {
      FlatRecord(root, frames);
      LaterUnseen(frames, mores);
      UnseenIsUnnamed(c.kids, Whole(frames), Later(frames, mores));
      LegalParts(frames[0].done, Later(frames, mores));
      Rejoin(root, x, c, frames[0].done, Later(frames, mores));
    }
  }

  // ---- what the logs show ----

  function Traces(dones: seq<seq<Act>>): (r: seq<seq<Ideal>>)
    ensures |r| == |dones|
  {
    seq(|dones|, i requires 0 <= i < |dones| => OwnTrace(dones[i]))
  }

  /** Each CD of the path shows its acts; marks may be missing, as a pulled log has none. */
  ghost predicate Books(p: seq<Cd>, dones: seq<seq<Act>>)
  {
    |p| == |dones| && forall i :: 0 <= i < |p| ==> Shows(p[i], OwnTrace(dones[i]), dones[i])
  }

  lemma {:induction false} BooksShow(p: seq<Cd>, dones: seq<seq<Act>>)
    requires p != [] && Books(p, dones)
    ensures ValidPath(p) && AllShow(p, 0, |p|, Traces(dones), dones)
  {
    hide Represents, MatchKids, Logs, OwnTrace, ValidCd;
  }

  lemma {:induction false} TwinShows(c: Cd, d: Cd, ideals: seq<Ideal>, done: seq<Act>)
    requires Twin(c, d) && Shows(c, ideals, done) && ValidCd(d)
    ensures Shows(d, ideals, done)
  {
    hide MatchKids, Logs, Represents, Valid;
    SameBooks(c.log, d.log, ideals);
  }

  /** Past the end, the books go on. */
  lemma {:induction false} BooksAhead(p: seq<Cd>, dones: seq<seq<Act>>, acts: seq<Act>)
    requires p != [] && Books(p, dones) && ValidPath(p) && LegalActs(acts)
    requires Past(Top(p), acts) && LiveRun(p, acts).Some?
    ensures Books(LiveRun(p, acts).value, Did(dones, acts))
  {
    hide LegalActs, Past, Shows, OwnTrace, LiveRun, RecordRun, ValidCd;
    LiveAhead(p, acts);
    BooksShow(p, dones);
    RecordShows(p, acts, 0, |p|, Traces(dones), dones);
    var q, r := RecordRun(p, acts).value, LiveRun(p, acts).value;
    OwnTraceAppend(dones[|p| - 1], acts);
    forall i | 0 <= i < |r|
      ensures Shows(r[i], OwnTrace(Did(dones, acts)[i]), Did(dones, acts)[i])
    {
      assert Twin(q[i], r[i]);
      TwinShows(q[i], r[i], OwnTrace(Did(dones, acts)[i]), Did(dones, acts)[i]);
    }
  }

  /** A CD that ends leaves its books with its parent, if its log is marked. */
  lemma {:induction false} BooksHandover(p: seq<Cd>, dones: seq<seq<Act>>, a: Act)
    requires |p| >= 2 && Books(p, dones) && a.Child? && Top(p).id == a.id && dones[|p| - 1] == a.body
    ensures
      var n := |p| - 1;
      Books(Handover(p, a.alloc), if Top(p).log.generated then Did(dones[..n], [a]) else dones[..n])
  {
    hide MatchKids, Logs, Represents, Valid, OwnTrace;
    var c, t, q := Top(p), |p| - 2, Handover(p, a.alloc);
    assert Shows(c, OwnTrace(a.body), a.body) && Shows(p[t], OwnTrace(dones[t]), dones[t]);
    assert ValidPath(p);
    HandoverValid(p, a.alloc);
    assert ValidCd(q[t]);
    SameBooks(p[t].log, q[t].log, OwnTrace(dones[t]));
    if c.log.generated {
      OwnTraceLogs(a.body);
      OwnTraceAppend(dones[t], [a]);
      NoTraceOfChild(a);
      assert OwnTrace(dones[t]) + [] == OwnTrace(dones[t]);
      LogsAppend(dones[t], a);
      TreeMatches(c, a);
      MatchKidsPush(p[t].kids, dones[t], a, TreeOf(c, a.alloc));
    }
  }

  /** A log that is marked is one that records again. */
  ghost predicate Honest(c: Cd)
  {
    c.log.generated ==> c.log.mode == GenerateLog
  }

  lemma {:induction false} HonestAhead(p: seq<Cd>, acts: seq<Act>)
    requires ValidPath(p) && LegalActs(acts) && Past(Top(p), acts) && LiveRun(p, acts).Some? && Honest(Top(p))
    ensures Honest(Top(LiveRun(p, acts).value))
  {
    hide LegalActs, Past, LiveRun, ValidPath, Logs;
    if Logs(acts) {
      LiveLoud(p, acts);
    } else {
      LiveQuiet(p, acts);
    }
  }

  /**
    Whatever the open CDs do after the interruption: each of them still shows, first of all, what it had done
    before it, and none of the CDs above changes but for requests completed in their children's records.
   */
  lemma {:induction false} ChainBooks(p: seq<Cd>, dones: seq<seq<Act>>, c: Cd, frames: seq<Frame>, mores: seq<seq<Act>>)
    returns (d: seq<Act>)
    requires 0 < |frames| == |mores| && LegalActs(Onward(frames, mores)) && LegalActs(Whole(frames))
    requires Ready(c, frames) && OwnNames(frames) && NewNames(frames, mores)
    requires Books(p, dones) && ValidPath(p + [c]) && LiveRun(p + [c], Onward(frames, mores)).Some?
    ensures Whole(frames) <= d
    ensures Books(LiveRun(p + [c], Onward(frames, mores)).value, dones + [d])
    ensures !c.log.generated ==> Honest(Top(LiveRun(p + [c], Onward(frames, mores)).value))
    decreases |frames|, 1
  {
    hide MatchKids, Represents, Valid, Logs, OwnTrace, LegalActs, LiveRun, Remaining, Resumes, ValidPath, Past;
    hide FirstLogged;
    hide Books;
    LegalOnward(frames, mores);
    var past, e := Whole(frames), AtEnd(c);
    ReplayTop(p, c, frames);
    BooksAtEnd(p, dones, c, past);
    var q, b := p + [e], past;
    LiveThen(p + [c], Before(frames, mores), mores[0]);
    if |frames| > 1 {
      q, b := ChainChild(p, dones, c, frames, mores);
    } else {
      SeenPast(e, past, mores[0]);
    }
    BooksAhead(q, dones + [b], mores[0]);
    if !c.log.generated {
      HonestAhead(q, mores[0]);
    }
    d := b + mores[0];
    assert Did(dones + [b], mores[0]) == dones + [d];
  }

  /** The open CD below runs to its end and hands over. */
  lemma {:induction false} ChainChild(p: seq<Cd>, dones: seq<seq<Act>>, c: Cd, frames: seq<Frame>, mores: seq<seq<Act>>)
    returns (q: seq<Cd>, b: seq<Act>)
    requires 1 < |frames| == |mores| && LegalActs(Onward(frames, mores)) && LegalActs(Whole(frames))
    requires Ready(c, frames) && OwnNames(frames) && NewNames(frames, mores)
    requires Books(p, dones) && ValidPath(p + [c])
    requires LegalActs(Before(frames, mores)) && LiveRun(p + [c], Before(frames, mores)).Some?
    ensures q != [] && ValidPath(q) && LiveRun(p + [c], Before(frames, mores)) == Some(q)
    ensures Whole(frames) <= b && Books(q, dones + [b]) && Past(Top(q), mores[0])
    ensures !c.log.generated ==> Honest(Top(q))
    decreases |frames|, 0
  {
    hide MatchKids, Represents, Valid, Logs, OwnTrace, LegalActs, LiveRun, Remaining, Resumes, FirstLogged, Handover;
    hide OwnNames, NewNames, Unseen, Books, Begun;
    LegalOnward(frames, mores);
    BooksLength(p, dones);
    var past, e, rest, id := Whole(frames), AtEnd(c), frames[1..], frames[1].id;
    var a := Child(id, Onward(rest, mores[1..]), frames[1].alloc);
    ReplayTop(p, c, frames);
    BooksAtEnd(p, dones, c, past);
    LegalOne(a);
    LiveThen(p + [c], frames[0].done, [a]);
    OneAct(p + [e], a);
    PulledReady(c, frames);
    DownOne(frames, mores);
    var kid := Begun(e, id);
    BegunId(e, id);
    var start := p + [e] + [kid];
    var s := LiveRun(start, a.body).value;
    var d1 := ChainBooks(p + [e], dones + [past], kid, rest, mores[1..]);
    var all := dones + [past] + [d1];
    assert SameCd(start[|p| + 1], s[|p| + 1]);
    BooksHandover(s, all, Child(id, d1, a.alloc));
    q := Handover(s, a.alloc);
    assert all[..|p| + 1] == dones + [past];
    LiveLeaves(start, a.body, |p|);
    b := if Top(s).log.generated then past + [Child(id, d1, a.alloc)] else past;
    assert Did(dones + [past], [Child(id, d1, a.alloc)]) == dones + [past + [Child(id, d1, a.alloc)]];
    HandedOver(s, a.alloc);
    assert SameCd(start[|p|], s[|p|]);
    LastShows(q, dones, b);
    if !Top(s).log.generated {
      assert Unseen(past, mores[0]) by { NewHere(frames, mores); }
      SeenPast(Top(q), past, mores[0]);
    }
  }

  lemma HandedOver(p: seq<Cd>, a: Alloc)
    requires |p| >= 2
    ensures
      var c, parent, q := Top(p), p[|p| - 2], Handover(p, a);
      && |q| == |p| - 1 && Top(q).relaxed == parent.relaxed
      && (!c.log.generated ==> Top(q).log == parent.log)
      && (c.log.generated && parent.relaxed && c.log.mode == GenerateLog ==> Top(q).log.mode == GenerateLog)
  {
  }

  lemma BooksLength(p: seq<Cd>, dones: seq<seq<Act>>)
    requires Books(p, dones)
    ensures |p| == |dones|
  {
  }

  lemma LastShows(q: seq<Cd>, dones: seq<seq<Act>>, b: seq<Act>)
    requires q != [] && Books(q, dones + [b])
    ensures MatchKids(Top(q).kids, b) && ValidCd(Top(q))
  {
    assert Shows(Top(q), OwnTrace(b), b);
  }

  lemma NewHere(frames: seq<Frame>, mores: seq<seq<Act>>)
    requires 0 < |frames| == |mores| && NewNames(frames, mores)
    ensures Unseen(Whole(frames), mores[0])
  {
  }

  lemma BegunId(parent: Cd, id: CDID)
    ensures Begun(parent, id).id == id
  {
  }

  lemma {:induction false} BooksAtEnd(p: seq<Cd>, dones: seq<seq<Act>>, c: Cd, past: seq<Act>)
    requires Books(p, dones) && Shows(c, OwnTrace(past), past)
    ensures Books(p + [AtEnd(c)], dones + [past])
  {
    hide MatchKids, Represents, Logs, OwnTrace;
    SameBooks(c.log, AtEnd(c).log, OwnTrace(past));
  }

  lemma {:induction false} SeenPast(e: Cd, past: seq<Act>, acts: seq<Act>)
    requires e.relaxed && Valid(e.log) && Remaining(e.log) == [] && MatchKids(e.kids, past) && Unseen(past, acts)
    ensures Past(e, acts)
  {
    hide Valid, Remaining, MatchKids;
    UnseenIsUnnamed(e.kids, past, acts);
  }

  // ---- a record that is too short ----

  lemma {:induction false} GoodMeansKids(l: Log, kids: seq<Tree>, acts: seq<Act>, i: nat)
    requires Valid(l) && LegalActs(acts) && Good(l, kids, acts) && i < |acts| && acts[i].Child?
    ensures LegalAct(acts[i]) && GoodKid(kids, acts[i])
    decreases i
  {
    hide Valid, Rerun, Outputs, LegalActs;
    GoodSplit(l, kids, acts);
    if i > 0 {
      GoodMeansKids(RerunAct(l, kids, acts[0]).value.0, kids, acts[1..], i - 1);
    }
  }

  lemma {:induction false} FirstLoud(acts: seq<Act>) returns (j: nat)
    requires Logs(acts)
    ensures j < |acts| && !Logs(acts[..j]) && Logs([acts[j]])
    decreases |acts|
  {
    var n := |acts| - 1;
    if Logs(acts[..n]) {
      j := FirstLoud(acts[..n]);
      assert acts[..n][..j] == acts[..j];
    } else {
      j := n;
      LogsOne(acts[n]);
    }
  }

  /** A record made at the interruption cannot answer what was logged after it. */
  lemma {:induction false} TooShort(l: Log, kids: seq<Tree>, frames: seq<Frame>, mores: seq<seq<Act>>)
    requires 0 < |frames| == |mores| && LegalActs(Onward(frames, mores)) && LegalActs(Whole(frames))
    requires OwnNames(frames) && NewNames(frames, mores) && LogsLater(frames, mores)
    requires Valid(l) && l.mode == ReplayLog && AgreesAll(Remaining(l), OwnTrace(Whole(frames)))
    requires MatchKids(kids, Whole(frames))
    ensures !Good(l, kids, Onward(frames, mores))
    decreases |frames|
  {
    hide Valid, Remaining, MatchKids, OwnTrace, AgreesAll, Good, Logs, FirstLogged, GoodKid, LegalActs, OwnNames;
    var acts, pre := Onward(frames, mores), Before(frames, mores);
    LegalOnward(frames, mores);
    if Good(l, kids, acts) {
      if Logs(mores[0]) {
        NewHere(frames, mores);
        EndOfRecord(l, kids, Whole(frames), pre, mores[0]) by { OwnTraceBefore(frames, mores); OwnTraceWhole(frames); }
      } else {
        var n := |frames[0].done|;
        assert acts[n] == Child(frames[1].id, Onward(frames[1..], mores[1..]), frames[1].alloc);
        GoodMeansKids(l, kids, acts, n);
        GoodKidMeans(kids, acts[n]);
        PulledShape(kids, frames);
        DownOne(frames, mores);
        var start := Pulled(kids, frames[1].id);
        TooShort(start.0, start.1, frames[1..], mores[1..]);
      }
    }
  }

  lemma {:induction false} EndOfRecord(l: Log, kids: seq<Tree>, past: seq<Act>, pre: seq<Act>, more: seq<Act>)
    requires LegalActs(pre + more) && LegalActs(pre) && LegalActs(more)
    requires Valid(l) && l.mode == ReplayLog && AgreesAll(Remaining(l), OwnTrace(past))
    requires OwnTrace(pre) == OwnTrace(past)
    requires MatchKids(kids, past) && Unseen(past, more) && Logs(more)
    ensures !Good(l, kids, pre + more)
  {
    hide Valid, Remaining, MatchKids, OwnTrace, AgreesAll, Logs, FirstLogged, GoodKid, LegalAct, Rerun, Outputs;
    if Good(l, kids, pre + more) {
      var j := FirstLoud(more);
      LogsOne(more[j]);
      assert (pre + more)[|pre| + j] == more[j];
      if more[j].Child? {
        GoodMeansKids(l, kids, pre + more, |pre| + j);
        FoundKid(kids, past, more[j].id);
        NewcomerReplays(kids, more[j]);
      } else {
        var x, y := pre + more[..j], more[j..];
        assert pre + more == x + y;
        GoodThen(l, kids, x, y);
        OwnTraceAppend(pre, more[..j]);
        OwnTraceLogs(more[..j]);
        assert OwnTrace(pre) + [] == OwnTrace(pre);
        ReplayActs(l, kids, x);
        EndReached(Rerun(l, kids, x).value.0, kids, y);
      }
    }
  }

  lemma {:induction false} EndReached(l: Log, kids: seq<Tree>, acts: seq<Act>)
    requires Valid(l) && Remaining(l) == [] && acts != [] && acts[0].Do? && LegalActs(acts)
    ensures !Good(l, kids, acts)
  {
    hide Valid, Remaining, Read;
    GoodSplit(l, kids, acts);
    PastTheEnd(l, acts[0].call);
  }

  /** The first record under the ID of the CD open below the root is the one made at the interruption. */
  lemma {:induction false} FirstRecordStays(kids: seq<Tree>, frames: seq<Frame>, d: seq<Act>)
    requires |frames| > 1 && OwnNames(frames) && Logs(Whole(frames[1..])) && Whole(frames) <= d && MatchKids(kids, d)
    ensures
      var start, acts := Pulled(kids, frames[1].id), Whole(frames[1..]);
      && Valid(start.0) && start.0.mode == ReplayLog
      && AgreesAll(Remaining(start.0), OwnTrace(acts)) && MatchKids(start.1, acts)
  {
    hide Logs, MatchKids, Ahead, Tiled, FirstLogged, OwnTrace, FirstTree;
    var done, acts, id := frames[0].done, Whole(frames[1..]), frames[1].id;
    var n := |done|;
    assert Whole(frames)[n] == Child(id, acts, frames[1].alloc);
    assert d[n] == Whole(frames)[n] && forall i :: 0 <= i < n ==> d[i] == done[i];
    assert LoggedUnder(d[n], id);
    var j := FirstLogged(d, id);
    assert j == n;
    FoundKid(kids, d, id);
    TreeShape(kids[FirstTree(kids, id)], acts);
  }

  /**
    The CD open below the root logged before and after the interruption: a second rollback finds its first,
    partial record, and the run cannot be replayed.
   */
  lemma {:induction false} StaleRecord(c: Cd, frames: seq<Frame>, mores: seq<seq<Act>>)
    requires 0 < |frames| == |mores| && LegalActs(Onward(frames, mores)) && LegalActs(Whole(frames))
    requires Ready(c, frames) && OwnNames(frames) && NewNames(frames, mores) && ValidPath([c])
    requires LiveRun([c], Onward(frames, mores)).Some? && LogsTwice(frames, mores)
    ensures
      var r := Top(LiveRun([c], Onward(frames, mores)).value);
      Valid(ReInit(r.log)) && !Good(ReInit(r.log), r.kids, Onward(frames, mores))
  {
    hide Valid, Remaining, MatchKids, OwnTrace, AgreesAll, Good, Logs, LegalActs, LiveRun, Resumes, OwnNames, NewNames;
    hide LogsLater;
    LegalOnward(frames, mores);
    assert [] + [c] == [c] && Books([], []);
    var d := ChainBooks([], [], c, frames, mores);
    var r := LiveRun([c], Onward(frames, mores)).value;
    LastShows(r, [], d);
    RewoundValid(Top(r).log);
    var acts, n := Onward(frames, mores), |frames[0].done|;
    if Good(ReInit(Top(r).log), Top(r).kids, acts) {
      assert acts[n] == Child(frames[1].id, Onward(frames[1..], mores[1..]), frames[1].alloc);
      GoodMeansKids(ReInit(Top(r).log), Top(r).kids, acts, n);
      GoodKidMeans(Top(r).kids, acts[n]);
      FirstRecordStays(Top(r).kids, frames, d);
      DownOne(frames, mores);
      var start := Pulled(Top(r).kids, frames[1].id);
      TooShort(start.0, start.1, frames[1..], mores[1..]);
    }
  }

  lemma RewoundValid(l: Log)
    requires Valid(l)
    ensures Valid(ReInit(l))
  {
  }

  // ---- the second rollback ----

  lemma {:induction false} RootReady(frames: seq<Frame>, allocs: seq<Alloc>) returns (x: Cd)
    requires frames != [] && LegalActs(Whole(frames)) && OpenRun([], frames).Some? && AllocsFit(frames, allocs, 0)
    requires
      var c := Top(RollBack(OpenRun([], frames).value, 0, allocs));
      Valid(c.log) && Resumes(c.log, c.kids, frames)
    ensures
      var c := Top(RollBack(OpenRun([], frames).value, 0, allocs));
      && ValidPath([Fresh(frames[0].id)]) && RecordRun([Fresh(frames[0].id)], Whole(frames)) == Some([x])
      && c == x.(log := ReInit(x.log)) && Ready(c, frames) && ValidPath([c])
  {
    hide OpenRun, RollBack, RecordRun, LegalActs, Whole, MatchKids, Represents, Valid, OwnTrace, Logs, Resumes;
    RootShows(frames, allocs);
    var q := RecordRun([Fresh(frames[0].id)], Whole(frames)).value;
    x := Top(q);
    assert q == [x];
  }

  /**
    A second rollback to the root. The first one was answered from the logs up to the interruption; then the
    open CDs went on, doing `mores`. If the CD that was open below the root had logged something before the
    interruption and it, or a CD in it, logs again after it, the run cannot be replayed. Otherwise the
    root is left as by a run that never failed, and so replays exactly when that one does.
   */
  lemma {:induction false} SecondRollback(frames: seq<Frame>, mores: seq<seq<Act>>, allocs: seq<Alloc>)
    requires 0 < |frames| == |mores| && LegalActs(Onward(frames, mores)) && LegalActs(Whole(frames))
    requires OpenRun([], frames).Some? && AllocsFit(frames, allocs, 0) && OwnNames(frames) && NewNames(frames, mores)
    requires
      var c := Top(RollBack(OpenRun([], frames).value, 0, allocs));
      && Valid(c.log) && Resumes(c.log, c.kids, frames) && ValidPath([c])
      && LiveRun([c], Onward(frames, mores)).Some?
    ensures
      var c := Top(RollBack(OpenRun([], frames).value, 0, allocs));
      var acts, root := Onward(frames, mores), [Fresh(frames[0].id)];
      var r := Top(LiveRun([c], acts).value);
      && Valid(ReInit(r.log)) && ValidPath(root)
      && (LogsTwice(frames, mores) ==> !Good(ReInit(r.log), r.kids, acts))
      && (!LogsTwice(frames, mores) ==> RecordRun(root, acts).Some? && Twin(r, Top(RecordRun(root, acts).value)))
  {
    hide OpenRun, RollBack, RecordRun, LegalActs, Whole, Valid, Resumes, LiveRun, Good, LogsTwice, NewNames, OwnNames;
    hide Ready;
    hide Onward;
    var c := Top(RollBack(OpenRun([], frames).value, 0, allocs));
    var acts := Onward(frames, mores);
    var x := RootReady(frames, allocs);
    var q := LiveRun([c], acts).value;
    assert ValidCd(q[0]);
    RewoundValid(q[0].log);
    if LogsTwice(frames, mores) {
      StaleRecord(c, frames, mores);
    } else {
      NeverFailed(x, c, frames, mores);
      assert Twin(q[0], RecordRun([Fresh(frames[0].id)], acts).value[0]);
    }
  }

  /** A second error, with CDs open again: the walk leaves the root with its log rewound, and it is resumed from. */
  lemma {:induction false} SecondError(c: Cd, again: seq<Frame>, allocs: seq<Alloc>)
    requires ValidPath([c]) && again != [] && LegalActs(Whole(again)) && OpenLive([c], again).Some?
    requires AllocsFit(again, allocs, 0)
    ensures LiveRun([c], Whole(again)).Some?
    ensures
      var d := Top(RollBack(OpenLive([c], again).value, 0, allocs));
      var r := Top(LiveRun([c], Whole(again)).value);
      && d == r.(log := ReInit(r.log)) && Valid(d.log)
      && (Resumes(d.log, d.kids, again) <==> Good(ReInit(r.log), r.kids, Whole(again)))
  {
    hide OpenLive, Escalate, LiveRun, LegalActs, Whole, Valid, Rerun, Outputs, Resume;
    LiveWalkIsRun([c], again, allocs);
    var q := LiveRun([c], Whole(again)).value;
    assert ValidCd(q[0]);
    RewoundValid(q[0].log);
    ResumeIsReplay(ReInit(q[0].log), q[0].kids, again);
  }

  /**
    The same on the calls alone, and from the first error to the second, which may strike anywhere: `again` are the
    CDs open then, `mores` what was done between the two. The second re-run is answered from the logs alone, as
    recorded, up to the second interruption, if and only if the whole run settles on paper and the CD that was
    open below the root did not log on both sides of the first interruption.
   */
  lemma {:induction false} ReplaysTwice(frames: seq<Frame>, mores: seq<seq<Act>>, allocs: seq<Alloc>, again: seq<Frame>,
                                        later: seq<Alloc>)
    requires 0 < |frames| == |mores| && again != [] && Whole(again) == Onward(frames, mores)
    requires LegalActs(Whole(again)) && LegalActs(Whole(frames)) && OwnNames(frames) && NewNames(frames, mores)
    requires OpenRun([], frames).Some? && AllocsFit(frames, allocs, 0) && AllocsFit(again, later, 0)
    requires
      var c := Top(RollBack(OpenRun([], frames).value, 0, allocs));
      && Valid(c.log) && Resumes(c.log, c.kids, frames) && ValidPath([c])
      && OpenLive([c], again).Some?
    ensures
      var c := Top(RollBack(OpenRun([], frames).value, 0, allocs));
      var d := Top(RollBack(OpenLive([c], again).value, 0, later));
      && Valid(d.log)
      && (Resumes(d.log, d.kids, again) <==> RunSettled(Whole(again)) && !LogsTwice(frames, mores))
  {
    hide OpenRun, OpenLive, RollBack, RecordRun, LegalActs, Whole, Valid, Resumes, LiveRun, Good, LogsTwice, NewNames;
    hide OwnNames, Onward, RunSettled, MatchKids, Represents;
    var c := Top(RollBack(OpenRun([], frames).value, 0, allocs));
    SecondError(c, again, later);
    SecondRollback(frames, mores, allocs);
    if !LogsTwice(frames, mores) {
      RunReplays(frames[0].id, Onward(frames, mores));
    }
  }
}
