/**
  What a rollback does to the logs. The recovery walk completes the logs of every CD it visits, the one that
  will re-execute included: their records go to their parents and they are emptied, except at the root.
 */
module LogRollback {
  import opened Bytes
  import opened LogModel
  import opened PackFormat
  import opened Replay
  import opened CdLogs
  import opened Wrappers
  import opened WholeRun
  import opened WholeReplay
  import opened Recital
  import opened Siblings

  // ---- CD::CompleteLogs, GetCDToRecover, InternalReexecute and Begin, as far as logs go ----

  /** CD::CompleteLogs of the current CD, relaxed and in execution mode; a root has no parent to push to. */
  function CompleteLogs(p: seq<Cd>, a: Alloc): (q: seq<Cd>)
    requires p != []
    ensures |q| == |p|
  {
    if |p| == 1 then p
    else Handover(p, a) + [Top(p).(log := Reset(Top(p).log), kids := [], incomplete := [])]
  }

  /** The CDs below `level` complete their logs and are destroyed, deepest first. */
  function Escalate(p: seq<Cd>, level: nat, allocs: seq<Alloc>): (q: seq<Cd>)
    requires level < |p| == |allocs|
    ensures |q| == level + 1
    decreases |p|
  {
    if |p| - 1 == level then p
    else
      var n := |p| - 1;
      // completing the logs changes the parent as Handover says; the CD itself is destroyed
      Escalate(Handover(p, allocs[n]), level, allocs[..n])
  }

  /** All the walk does to logs: the CD that will re-execute completes its own as well. */
  function Walk(p: seq<Cd>, level: nat, allocs: seq<Alloc>): (q: seq<Cd>)
    requires level < |p| == |allocs|
    ensures |q| == level + 1
  {
    CompleteLogs(Escalate(p, level, allocs), allocs[level])
  }

  /** CommLog::ReInit of the CD that re-executes. */
  function Rewind(p: seq<Cd>): seq<Cd>
    requires p != []
  {
    WithTop(p, Top(p).(log := ReInit(Top(p).log)))
  }

  /** CD::Begin: a CD whose relaxed parent is replaying pulls its log from there. */
  function BeginAgain(p: seq<Cd>): seq<Cd>
    requires p != []
  {
    if |p| == 1 || !p[|p| - 2].relaxed || p[|p| - 2].log.mode != ReplayLog then p
    else
      var start := Pulled(p[|p| - 2].kids, Top(p).id);
      WithTop(p, Top(p).(log := start.0, kids := start.1))
  }

  /** From an error found in the current CD to the re-execution of the CD at `level`. */
  function RollBack(p: seq<Cd>, level: nat, allocs: seq<Alloc>): (q: seq<Cd>)
    requires level < |p| == |allocs|
    ensures |q| == level + 1
  {
    BeginAgain(Rewind(Walk(p, level, allocs)))
  }

  // ---- a CD with a parent ----

  lemma {:induction false} EscalateKeeps(p: seq<Cd>, level: nat, allocs: seq<Alloc>)
    requires level < |p| == |allocs| && forall i :: 0 <= i < |p| ==> p[i].log.mode == GenerateLog
    ensures forall i :: 0 <= i <= level ==> Escalate(p, level, allocs)[i].log.mode == GenerateLog
    decreases |p|
  {
    if |p| - 1 > level {
      var n := |p| - 1;
      EscalateKeeps(Handover(p, allocs[n]), level, allocs[..n]);
    }
  }

  /**
    A rollback to a CD that has a parent, in a path that was recording: whatever had been logged, the CD
    starts over with nothing, so its acts are answered exactly if there is no call among them.
   */
  lemma {:induction false} InnerRollback(p: seq<Cd>, level: nat, allocs: seq<Alloc>, acts: seq<Act>)
    requires 0 < level < |p| == |allocs| && LegalActs(acts)
    requires forall i :: 0 <= i < |p| ==> p[i].log.mode == GenerateLog
    ensures
      var c := Top(RollBack(p, level, allocs));
      c.log == NOTHING && c.kids == [] && Valid(c.log) && (Good(c.log, c.kids, acts) <==> !Logs(acts))
  {
    hide Escalate, Good, Logs, LegalActs;
    EscalateKeeps(p, level, allocs);
    NothingReplays(acts);
  }

  /**
    Unless its parent is replaying: then the CD that re-executes pulls the first record packed under its ID, or
    starts empty if there is none, and nothing else in the path changes.
   */
  lemma {:induction false} RollbackInReplay(p: seq<Cd>, level: nat, allocs: seq<Alloc>, a: Act)
    requires 0 < level < |p| == |allocs| && a.Child? && LegalAct(a)
    requires
      var w := Walk(p, level, allocs);
      w[level - 1].relaxed && w[level - 1].log.mode == ReplayLog && a.id == Top(w).id
    ensures
      var w, r := Walk(p, level, allocs), RollBack(p, level, allocs);
      var kids, c := w[level - 1].kids, Top(r);
      var k := FirstTree(kids, a.id);
      && r[..level] == w[..level] && c.id == a.id && c.log.mode == ReplayLog && c.log.cursor == 0
      && (k == |kids| ==> c.log.table == [] && c.log.queue == [] && c.kids == [])
      && (k < |kids| ==> c.log.table == kids[k].table && c.log.queue == kids[k].queue && c.kids == kids[k].kids)
      && (GoodKid(kids, a) <==> Valid(c.log) && LegalActs(a.body) && Good(c.log, c.kids, a.body))
  {
    hide Escalate, Good, LegalActs, FirstTree, CompleteLogs;
    LegalBody(a);
  }

  /** From a strict parent nothing is pulled, and from one that records neither. */
  lemma {:induction false} NothingPulled(p: seq<Cd>, level: nat, allocs: seq<Alloc>)
    requires 0 < level < |p| == |allocs|
    requires
      var w := Walk(p, level, allocs);
      !w[level - 1].relaxed || w[level - 1].log.mode == GenerateLog
    ensures
      var w, r := Walk(p, level, allocs), RollBack(p, level, allocs);
      && r[..level] == w[..level] && Top(r).kids == Top(w).kids
      && Top(r).log == Top(w).log.(mode := ReplayLog, cursor := 0)
  {
    hide Escalate, CompleteLogs;
  }

  // ---- the root, interrupted anywhere ----

  /** A CD that is open when the error strikes, with what it has done so far. */
  datatype Frame = Frame(id: CDID, done: seq<Act>, alloc: Alloc)

  /** The interrupted run as acts: each open CD is the last child of the one above it. */
  function Whole(frames: seq<Frame>): seq<Act>
    requires frames != []
  {
    if |frames| == 1 then frames[0].done
    else frames[0].done + [Child(frames[1].id, Whole(frames[1..]), frames[1].alloc)]
  }

  lemma {:induction false} LegalFrames(frames: seq<Frame>)
    requires frames != [] && LegalActs(Whole(frames))
    ensures LegalActs(frames[0].done)
    ensures |frames| > 1 ==> LegalActs(Whole(frames[1..]))
  {
    if |frames| > 1 {
      var acts, n := Whole(frames), |frames[0].done|;
      assert forall i :: 0 <= i < n ==> acts[i] == frames[0].done[i];
      assert LegalAct(acts[n]);
    }
  }

  /** Recording up to the interruption: the path of open CDs. */
  ghost function OpenRun(p: seq<Cd>, frames: seq<Frame>): (r: Option<seq<Cd>>)
    requires (p == [] || ValidPath(p)) && frames != [] && LegalActs(Whole(frames))
    ensures r.Some? ==> ValidPath(r.value) && |r.value| == |p| + |frames|
    decreases |frames|
  {
    LegalFrames(frames);
    BeginValid(p, frames[0].id);
    var q :- RecordRun(p + [Fresh(frames[0].id)], frames[0].done);
    if |frames| == 1 then Some(q) else OpenRun(q, frames[1..])
  }

  lemma BeginValid(p: seq<Cd>, id: CDID)
    requires p == [] || ValidPath(p)
    ensures ValidPath(p + [Fresh(id)])
  {
    assert Valid(EMPTY);
  }

  lemma {:induction false} RunThen(p: seq<Cd>, x: seq<Act>, a: Act)
    requires ValidPath(p) && LegalActs(x + [a]) && LegalActs(x) && LegalAct(a)
    ensures RecordRun(p, x + [a]) == match RecordRun(p, x) case None => None case Some(q) => RecordAct(q, a)
    decreases |x|
  {
    hide Valid, ValidCd, RecordAct, LegalAct;
    if x == [] {
      assert x + [a] == [a] && [a][1..] == [];
    } else {
      assert (x + [a])[1..] == x[1..] + [a];
      LegalSplit(x);
      LegalSplit(x + [a]);
      var q := RecordAct(p, x[0]);
      if q.Some? {
        RunThen(q.value, x[1..], a);
      }
    }
  }

  lemma {:induction false} EscalateLast(p: seq<Cd>, level: nat, allocs: seq<Alloc>)
    requires level < |p| - 1 && |p| == |allocs|
    ensures Escalate(p, level, allocs) == Handover(Escalate(p, level + 1, allocs), allocs[level + 1])
    decreases |p|
  {
    hide Handover;
    var n := |p| - 1;
    HandoverLength(p, allocs[n]);
    if level < n - 1 {
      EscalateLast(Handover(p, allocs[n]), level, allocs[..n]);
    }
  }

  /** What the walk leaves of the path when it destroys the CD that has completed its logs. */
  lemma CompletedBelow(p: seq<Cd>, a: Alloc)
    requires |p| >= 2
    ensures CompleteLogs(p, a)[..|p| - 1] == Handover(p, a)
  {
  }

  lemma HandoverLength(p: seq<Cd>, a: Alloc)
    requires |p| >= 2
    ensures |Handover(p, a)| == |p| - 1
  {
  }

  ghost predicate AllocsFit(frames: seq<Frame>, allocs: seq<Alloc>, from: nat)
  {
    |allocs| == from + |frames| && forall i :: 0 <= i < |frames| ==> allocs[from + i] == frames[i].alloc
  }

  /** Completing the logs of the open CDs on the way up leaves what completing those CDs would have left. */
  lemma {:induction false} WalkIsRun(p: seq<Cd>, frames: seq<Frame>, allocs: seq<Alloc>)
    requires (p == [] || ValidPath(p)) && frames != [] && LegalActs(Whole(frames)) && OpenRun(p, frames).Some?
    requires AllocsFit(frames, allocs, |p|)
    ensures ValidPath(p + [Fresh(frames[0].id)])
    ensures RecordRun(p + [Fresh(frames[0].id)], Whole(frames)) == Some(Escalate(OpenRun(p, frames).value, |p|, allocs))
    decreases |frames|
  {
    hide ValidPath, Handover, LegalActs, RecordRun, Escalate;
    LegalFrames(frames);
    BeginValid(p, frames[0].id);
    var start, done := p + [Fresh(frames[0].id)], frames[0].done;
    if |frames| == 1 {
      NoEscalation(OpenRun(p, frames).value, |p|, allocs);
    } else {
      var q, r := RecordRun(start, done).value, OpenRun(p, frames).value;
      var rest := frames[1..];
      WalkIsRun(q, rest, allocs);
      EscalateLast(r, |p|, allocs);
      RunIntoChild(start, done, q, frames[1].id, Whole(rest), frames[1].alloc);
    }
  }

  lemma NoEscalation(p: seq<Cd>, level: nat, allocs: seq<Alloc>)
    requires level == |p| - 1 && |p| == |allocs|
    ensures Escalate(p, level, allocs) == p
  {
  }

  lemma {:induction false} RunIntoChild(p: seq<Cd>, x: seq<Act>, q: seq<Cd>, id: CDID, body: seq<Act>, a: Alloc)
    requires ValidPath(p) && LegalActs(x) && LegalActs(body) && LegalActs(x + [Child(id, body, a)])
    requires RecordRun(p, x) == Some(q) && ValidPath(q + [Fresh(id)]) && RecordRun(q + [Fresh(id)], body).Some?
    ensures |RecordRun(q + [Fresh(id)], body).value| >= 2
    ensures RecordRun(p, x + [Child(id, body, a)]) == Some(Handover(RecordRun(q + [Fresh(id)], body).value, a))
  {
    hide Valid, ValidCd, Handover, LegalActs, RecordRun;
    var c := Child(id, body, a);
    assert LegalAct(c);
    RunThen(p, x, c);
  }

  /** Re-running the acts, from the log of the CD that re-executes to the innermost of the CDs that were open. */
  ghost function Resume(l: Log, kids: seq<Tree>, frames: seq<Frame>): (r: Option<(Log, seq<Output>)>)
    requires Valid(l) && frames != [] && LegalActs(Whole(frames))
    ensures r.Some? ==> Valid(r.value.0)
    decreases |frames|
  {
    LegalFrames(frames);
    var r :- Rerun(l, kids, frames[0].done);
    if |frames| == 1 then Some(r)
    else
      var start := Pulled(kids, frames[1].id);
      if r.0.mode != ReplayLog || !Valid(start.0) then None
      else
        var s :- Resume(start.0, start.1, frames[1..]);
        Some((s.0, r.1 + s.1))
  }

  /** Same answers as recorded, up to the interruption. */
  ghost predicate Resumes(l: Log, kids: seq<Tree>, frames: seq<Frame>)
    requires Valid(l) && frames != [] && LegalActs(Whole(frames))
  {
    Resume(l, kids, frames).Some? && Resume(l, kids, frames).value.1 == Outputs(Whole(frames))
  }

  lemma {:induction false} OutputsAppend(x: seq<Act>, y: seq<Act>)
    ensures Outputs(x + y) == Outputs(x) + Outputs(y)
    decreases |x|
  {
    hide ActOutputs;
    if x == [] {
      assert x + y == y;
    } else {
      assert (x + y)[1..] == x[1..] + y;
      OutputsAppend(x[1..], y);
      var h, u, v := ActOutputs(x[0]), Outputs(x[1..]), Outputs(y);
      assert h + (u + v) == h + u + v;
    }
  }

  lemma {:induction false} RerunThen(l: Log, kids: seq<Tree>, x: seq<Act>, a: Act)
    requires Valid(l) && LegalActs(x + [a]) && LegalActs(x) && LegalAct(a)
    ensures
      var r := Rerun(l, kids, x);
      Rerun(l, kids, x + [a]) ==
        if r.None? then None
        else
          match RerunAct(r.value.0, kids, a)
          case None => None
          case Some(s) => Some((s.0, r.value.1 + s.1))
    decreases |x|
  {
    hide Valid, LegalAct, RerunAct;
    var all := x + [a];
    LegalSplit(all);
    if x == [] {
      assert all[1..] == [] && all[0] == a;
      var s := RerunAct(l, kids, a);
      assert s.Some? ==> s.value.1 + [] == s.value.1 == [] + s.value.1;
    } else {
      LegalSplit(x);
      assert all[1..] == x[1..] + [a] && all[0] == x[0];
      var s := RerunAct(l, kids, x[0]);
      if s.Some? {
        RerunThen(s.value.0, kids, x[1..], a);
        Reassociate(s.value.1);
      }
    }
  }

  lemma Reassociate(h: seq<Output>)
    ensures forall u: seq<Output>, v: seq<Output> :: h + (u + v) == h + u + v
  {
  }

  /** Resuming is replaying the whole. */
  lemma {:induction false} ResumeIsReplay(l: Log, kids: seq<Tree>, frames: seq<Frame>)
    requires Valid(l) && frames != [] && LegalActs(Whole(frames))
    ensures Resume(l, kids, frames).Some? <==> Rerun(l, kids, Whole(frames)).Some?
    ensures Resume(l, kids, frames).Some? ==>
              Resume(l, kids, frames).value.1 == Rerun(l, kids, Whole(frames)).value.1
    decreases |frames|
  {
    hide Valid, Rerun;
    LegalFrames(frames);
    if |frames| > 1 {
      var done, rest := frames[0].done, frames[1..];
      var a := Child(frames[1].id, Whole(rest), frames[1].alloc);
      assert LegalAct(a);
      RerunThen(l, kids, done, a);
      var start := Pulled(kids, a.id);
      if Valid(start.0) {
        ResumeIsReplay(start.0, start.1, rest);
      }
    }
  }

  /** No open CD has the ID of an earlier sibling that logged. */
  ghost predicate OwnNames(frames: seq<Frame>)
    requires frames != []
  {
    |frames| > 1 ==>
      && FirstLogged(frames[0].done, frames[1].id) == |frames[0].done|
      && OwnNames(frames[1..])
  }

  /** The acts whose record the innermost open CD replays from, if the record of `acts` is replayed at the top. */
  function Origin(acts: seq<Act>, frames: seq<Frame>): seq<Act>
    requires frames != []
    decreases |frames|
  {
    if |frames| == 1 then acts
    else
      var j := FirstLogged(acts, frames[1].id);
      Origin(if j < |acts| then acts[j].body else [], frames[1..])
  }

  function Innermost(frames: seq<Frame>): seq<Act>
    requires frames != []
  {
    frames[|frames| - 1].done
  }

  /** The replay of an open CD, split into its own part and that of the next one. */
  lemma {:induction false} ResumeSplits(l: Log, kids: seq<Tree>, frames: seq<Frame>)
    requires Valid(l) && frames != [] && LegalActs(Whole(frames)) && LegalActs(frames[0].done)
    requires Resumes(l, kids, frames)
    ensures Good(l, kids, frames[0].done)
    ensures
      |frames| > 1 ==>
        && LegalActs(Whole(frames[1..]))
        && var start := Pulled(kids, frames[1].id);
        Valid(start.0) && Resumes(start.0, start.1, frames[1..])
  {
    hide Valid, Rerun, Outputs, LegalActs;
    LegalFrames(frames);
    if |frames| > 1 {
      var done, rest := frames[0].done, frames[1..];
      var a := Child(frames[1].id, Whole(rest), frames[1].alloc);
      var start := Pulled(kids, a.id);
      RerunLength(l, kids, done);
      OutputsAppend(done, [a]);
      OutputsOfChild(a);
      SplitOutputs(Rerun(l, kids, done).value.1, Resume(start.0, start.1, rest).value.1,
                   Outputs(done), Outputs(Whole(rest)));
    }
  }

  /** Where a replay from perfect records ends: the innermost CD has used up what it needed of its record. */
  lemma {:induction false} ResumeEnds(l: Log, kids: seq<Tree>, acts: seq<Act>, frames: seq<Frame>)
    requires Valid(l) && l.mode == ReplayLog && frames != [] && LegalActs(Whole(frames)) && LegalActs(acts)
    requires MatchKids(kids, acts) && Perfect(l, kids, acts) && Resumes(l, kids, frames)
    ensures
      var end := Resume(l, kids, frames).value.0;
      Tells(end, Rest(Text(OwnTrace(Origin(acts, frames))), |OwnTrace(Innermost(frames))|))
    decreases |frames|
  {
    hide Valid, MatchKids, Rerun, Outputs, FirstLogged, OwnTrace, Perfect, Tells, LegalActs, Text, Rest, Good, Pulled;
    LegalFrames(frames);
    ResumeSplits(l, kids, frames);
    if |frames| == 1 {
      RecitesExactly(l, kids, frames[0].done, acts);
    } else {
      var id, rest := frames[1].id, frames[1..];
      FoundPerfect(l, kids, acts, id);
      var start, j := Pulled(kids, id), FirstLogged(acts, id);
      if j == |acts| {
        NothingIsPerfect();
        ResumeEnds(start.0, start.1, [], rest);
      } else {
        ResumeEnds(start.0, start.1, acts[j].body, rest);
      }
      assert Innermost(rest) == Innermost(frames);
    }
  }

  lemma NothingIsPerfect()
    ensures Valid(NOTHING) && Perfect(NOTHING, [], []) && MatchKids([], []) && LegalActs([])
  {
    NothingAhead();
  }

  /** A log that is read in order: nothing left means a flip, and anything left is handed out. */
  lemma {:induction false} WhatComesNext(l: Log, text: seq<seq<byte>>)
    requires Tells(l, text)
    ensures Valid(l)
    ensures text == [] ==> forall k: Call :: (k.Waitall? ==> k.reqs != []) ==> Read(l, k) == NeedsMpi
    ensures
      text != [] ==>
        var r := Read(l, Recv(|text[0]|));
        r.Replayed? && r.out == Payload(text[0])
  {
    hide Read, Tells;
    TellsIsValid(l, text);
    if text == [] {
      assert Remaining(l) == [] by { ToldAll(l); }
      forall k: Call | k.Waitall? ==> k.reqs != []
        ensures Read(l, k) == NeedsMpi
      {
        PastTheEnd(l, k);
      }
    } else {
      PayloadTells(l, text, |text[0]|);
      RecvReads(l, |text[0]|);
    }
  }

  lemma ToldAll(l: Log)
    requires Tells(l, [])
    ensures Valid(l) && Remaining(l) == []
  {
  }

  lemma RecvReads(l: Log, n: nat)
    requires Valid(l)
    ensures Read(l, Recv(n)) == ReadPayload(l, n)
  {
  }

  /** An open CD that shares its ID with no earlier sibling that logged replays from its own record. */
  lemma {:induction false} OwnNamesOrigin(frames: seq<Frame>)
    requires frames != [] && OwnNames(frames)
    ensures OwnTrace(Origin(Whole(frames), frames)) == OwnTrace(Innermost(frames))
    decreases |frames|
  {
    hide FirstLogged, Logs, OwnTrace;
    if |frames| > 1 {
      var done, rest := frames[0].done, frames[1..];
      var a := Child(frames[1].id, Whole(rest), frames[1].alloc);
      FirstLoggedPush(done, a, a.id);
      assert SameCD(a.id, a.id);
      assert Innermost(rest) == Innermost(frames);
      if Logs(a.body) {
        assert Whole(frames)[|done|] == a;
        OwnNamesOrigin(rest);
      } else {
        NothingInside(rest);
        OriginOfNothing(rest);
      }
    }
  }

  lemma {:induction false} OriginOfNothing(frames: seq<Frame>)
    requires frames != []
    ensures OwnTrace(Origin([], frames)) == []
    decreases |frames|
  {
    if |frames| > 1 {
      OriginOfNothing(frames[1..]);
    }
  }

  lemma {:induction false} NothingInside(frames: seq<Frame>)
    requires frames != [] && !Logs(Whole(frames))
    ensures OwnTrace(Innermost(frames)) == []
    decreases |frames|
  {
    hide OwnTrace, Logs;
    if |frames| == 1 {
      OwnTraceLogs(frames[0].done);
    } else {
      NotLoggedAt(Whole(frames), |frames[0].done|);
      NothingInside(frames[1..]);
    }
  }

  lemma {:induction false} OutputsOfChild(a: Act)
    requires a.Child?
    ensures Outputs([a]) == Outputs(a.body)
  {
    assert [a][1..] == [];
    assert Outputs([a]) == ActOutputs(a) + [];
  }

  lemma {:induction false} PulledShape(kids: seq<Tree>, frames: seq<Frame>)
    requires |frames| > 1 && LegalActs(Whole(frames)) && OwnNames(frames) && MatchKids(kids, Whole(frames))
    ensures
      var start, acts := Pulled(kids, frames[1].id), Whole(frames[1..]);
      && Valid(start.0) && start.0.mode == ReplayLog
      && AgreesAll(Remaining(start.0), OwnTrace(acts)) && MatchKids(start.1, acts)
  {
    hide LegalActs, Logs, MatchKids, Ahead, Tiled, FirstLogged;
    var done, acts := frames[0].done, Whole(frames[1..]);
    var a := Child(frames[1].id, acts, frames[1].alloc);
    FoundKid(kids, Whole(frames), a.id);
    FirstLoggedPush(done, a, a.id);
    if FirstTree(kids, a.id) == |kids| {
      NothingAhead();
      NothingMatches(acts);
    } else {
      assert Whole(frames)[|done|] == a;
      TreeShape(kids[FirstTree(kids, a.id)], acts);
    }
  }

  lemma {:induction false} NothingMatches(acts: seq<Act>)
    requires !Logs(acts)
    ensures AgreesAll([], OwnTrace(acts)) && MatchKids([], acts)
    decreases |acts|
  {
    OwnTraceLogs(acts);
    if acts != [] {
      NotLoggedAt(acts, |acts| - 1);
      NothingMatches(acts[..|acts| - 1]);
    }
  }

  lemma {:induction false} SplitOutputs(x: seq<Output>, y: seq<Output>, u: seq<Output>, v: seq<Output>)
    requires |x| == |u|
    ensures x + y == u + v <==> x == u && y == v
  {
    if x + y == u + v {
      assert x == (x + y)[..|x|] && y == (x + y)[|x|..];
      assert u == (u + v)[..|u|] && v == (u + v)[|u|..];
    }
  }

  /** After a rollback to the root it shows what the program had done, and its log is rewound. */
  lemma {:induction false} RootShows(frames: seq<Frame>, allocs: seq<Alloc>)
    requires frames != [] && LegalActs(Whole(frames)) && OpenRun([], frames).Some? && AllocsFit(frames, allocs, 0)
    ensures ValidPath([Fresh(frames[0].id)]) && RecordRun([Fresh(frames[0].id)], Whole(frames)).Some?
    ensures
      var c := Top(RollBack(OpenRun([], frames).value, 0, allocs));
      var r := Top(RecordRun([Fresh(frames[0].id)], Whole(frames)).value);
      && c == r.(log := ReInit(r.log)) && Shows(c, OwnTrace(Whole(frames)), Whole(frames))
  {
    hide OpenRun, Escalate, RecordRun, LegalActs, Whole, MatchKids, Ahead, Tiled, OwnTrace, Logs;
    var p, acts := OpenRun([], frames).value, Whole(frames);
    WalkIsRun([], frames, allocs);
    var root := [Fresh(frames[0].id)];
    assert [] + root == root;
    var q := Escalate(p, 0, allocs);
    RecordedShows(root, acts);
    SameBooks(q[0].log, ReInit(q[0].log), OwnTrace(acts));
  }

  /**
    A rollback to the root, from an error anywhere below it: the logs of the open CDs are in the root's by
    then, and re-running the program is answered from the logs alone, as recorded, up to the interruption,
    exactly if each of the root's records holds its own data, none of its calls is a receive inside the CD,
    and each child CD is answered from the first record packed under its ID. Then the next call of the
    innermost CD flips back to recording, whatever it is, exactly if the record that CD replays from is not
    longer than what it has done. If it is, a receive of the right length is handed the next string in it.
   */
  lemma {:induction false} RootRollback(frames: seq<Frame>, allocs: seq<Alloc>)
    requires frames != [] && LegalActs(Whole(frames)) && OpenRun([], frames).Some? && AllocsFit(frames, allocs, 0)
    ensures
      var c := Top(RollBack(OpenRun([], frames).value, 0, allocs));
      var acts := Whole(frames);
      && Valid(c.log)
      && (Resumes(c.log, c.kids, frames) <==>
            DeliveredAll(Remaining(c.log), OwnTrace(acts)) && OwnCallsPlay(acts) && GoodKids(c.kids, acts))
      && (Resumes(c.log, c.kids, frames) ==>
            var end := Resume(c.log, c.kids, frames).value.0;
            var text, n := Text(OwnTrace(Origin(acts, frames))), |OwnTrace(Innermost(frames))|;
            && ((forall k: Call :: (k.Waitall? ==> k.reqs != []) ==> Read(end, k) == NeedsMpi) <==> |text| <= n)
            && (n < |text| ==>
                  var r := Read(end, Recv(|text[n]|));
                  r.Replayed? && r.out == Payload(text[n])))
  {
    hide OpenRun, RollBack, RecordRun, LegalActs, OwnCallsPlay, GoodKids, Whole, Read, Shows, Remaining, Valid;
    hide AgreesAll, DeliveredAll, OwnTrace, Rerun, Perfect, Recites, MatchKids, Text, Tells, Origin;
    var acts := Whole(frames);
    RootShows(frames, allocs);
    var c := Top(RollBack(OpenRun([], frames).value, 0, allocs));
    ShownShape(c, acts);
    ReplayActs(c.log, c.kids, acts);
    ResumeIsReplay(c.log, c.kids, frames);
    if Resumes(c.log, c.kids, frames) {
      PerfectReplays(c.log, c.kids, acts);
      ResumeEnds(c.log, c.kids, acts, frames);
      var end := Resume(c.log, c.kids, frames).value.0;
      WhatComesNext(end, Rest(Text(OwnTrace(Origin(acts, frames))), |OwnTrace(Innermost(frames))|));
    }
  }

  lemma {:induction false} ShownShape(c: Cd, acts: seq<Act>)
    requires Shows(c, OwnTrace(acts), acts) && c.log.cursor == 0
    ensures Valid(c.log) && AgreesAll(Remaining(c.log), OwnTrace(acts)) && MatchKids(c.kids, acts)
  {
    hide MatchKids, Ahead, Tiled, Logs, OwnTrace;
  }

  // ---- and a CD below the root, interrupted anywhere ----

  lemma {:induction false} OpenRunRecords(p: seq<Cd>, frames: seq<Frame>)
    requires (p == [] || ValidPath(p)) && frames != [] && LegalActs(Whole(frames)) && OpenRun(p, frames).Some?
    requires forall i :: 0 <= i < |p| ==> p[i].log.mode == GenerateLog
    ensures forall i :: 0 <= i < |p| + |frames| ==> OpenRun(p, frames).value[i].log.mode == GenerateLog
    decreases |frames|
  {
    hide Valid, ValidCd, RecordRun, Whole;
    LegalFrames(frames);
    BeginValid(p, frames[0].id);
    var start := p + [Fresh(frames[0].id)];
    var q := RecordRun(start, frames[0].done).value;
    assert forall i :: 0 <= i < |start| ==> SameCd(start[i], q[i]);
    if |frames| > 1 {
      OpenRunRecords(q, frames[1..]);
    }
  }

  lemma {:induction false} LegalBelow(frames: seq<Frame>, level: nat)
    requires level < |frames| && LegalActs(Whole(frames))
    ensures LegalActs(Whole(frames[level..]))
    decreases level
  {
    if level == 0 {
      assert frames[0..] == frames;
    } else {
      LegalFrames(frames);
      LegalBelow(frames[1..], level - 1);
      assert frames[1..][level - 1..] == frames[level..];
    }
  }

  /** A rollback to any other CD: of what it and the CDs below it had done, nothing can be replayed. */
  lemma {:induction false} InnerRollbackForgets(frames: seq<Frame>, level: nat, allocs: seq<Alloc>)
    requires 0 < level < |frames| == |allocs| && LegalActs(Whole(frames)) && OpenRun([], frames).Some?
    ensures
      var c := Top(RollBack(OpenRun([], frames).value, level, allocs));
      var acts := Whole(frames[level..]);
      && LegalActs(acts) && Valid(c.log)
      && (Good(c.log, c.kids, acts) <==> !Logs(acts))
  {
    hide OpenRun, RollBack, Whole, Good, Logs, LegalActs;
    OpenRunRecords([], frames);
    LegalBelow(frames, level);
    InnerRollback(OpenRun([], frames).value, level, allocs, Whole(frames[level..]));
  }

  /** One message received in a child CD that then re-executes: it is gone. */
  lemma {:induction false} ChildStartsOver(root: CDID, id: CDID, m: Mpi, a: Alloc)
    ensures
      var acts := [Do(Recv(|m.data|), m)];
      var frames := [Frame(root, [], a), Frame(id, acts, a)];
      && LegalActs(Whole(frames)) && OpenRun([], frames).Some?
      && var c := Top(RollBack(OpenRun([], frames).value, 1, [a, a]));
      LegalActs(acts) && Valid(c.log) && !Good(c.log, c.kids, acts)
  {
    hide Valid, Good;
    var acts := [Do(Recv(|m.data|), m)];
    var frames := [Frame(root, [], a), Frame(id, acts, a)];
    assert frames[1..] == [frames[1]] && Whole(frames[1..]) == acts;
    assert Whole(frames) == [] + [Child(id, acts, a)] == [Child(id, acts, a)];
    assert LegalAct(acts[0]) && acts[1..] == [];
    assert LegalAct(Child(id, acts, a));
    BeginValid([], root);
    var p := [] + [Fresh(root)];
    BeginValid(p, id);
    assert RecordRun(p, []) == Some(p);
    var q := p + [Fresh(id)];
    assert RecordRun(q, acts).Some?;
    assert OpenRun(p, frames[1..]).Some?;
    LogsOne(acts[0]);
    InnerRollbackForgets(frames, 1, [a, a]);
  }
}
