/**
  Running on after a rollback: calls are answered from the logs as long as these reach, the first call past
  the end of a log flips its CD back to recording, and from there on everything is recorded behind what was
  replayed.
 */
module Relive {
  import opened Bytes
  import opened LogModel
  import opened PackFormat
  import opened Replay
  import opened CdLogs
  import opened Wrappers
  import opened WholeRun
  import opened WholeReplay
  import opened LogRollback
  import opened Moved
  import opened Twins

  /** A child CD at its Begin: it inherits its parent's mode and, in a replay, pulls its log from there. */
  function Begun(parent: Cd, id: CDID): Cd
  {
    if parent.relaxed && parent.log.mode == ReplayLog then
      var start := Pulled(parent.kids, id);
      Cd(id, true, start.0, start.1, [])
    else Fresh(id)
  }

  /** Under a strict parent, or one that records, it starts to record with an empty log. */
  lemma {:induction false} BegunFresh(parent: Cd, id: CDID)
    requires !parent.relaxed || parent.log.mode == GenerateLog
    ensures Begun(parent, id) == Cd(id, true, Log(GenerateLog, [], [], [], 0, false), [], [])
  {
  }

  /** Reading past the end puts the CD back to recording. */
  function Flipped(p: seq<Cd>): seq<Cd>
    requires p != []
  {
    WithTop(p, Top(p).(log := After(Top(p).log, ModeFlip)))
  }

  lemma {:induction false} FlippedValid(p: seq<Cd>)
    requires ValidPath(p)
    ensures ValidPath(Flipped(p)) && AllTwins(p, Flipped(p))
  {
    ModeIrrelevant(Top(p).log, After(Top(p).log, ModeFlip));
  }

  lemma {:induction false} FlippedSame(p: seq<Cd>, q: seq<Cd>)
    requires p != [] && SameCds(Flipped(p), q)
    ensures SameCds(p, q)
  {
    forall i | 0 <= i < |p|
      ensures SameCd(p[i], q[i])
    {
      assert SameCd(Flipped(p)[i], q[i]);
    }
  }

  lemma {:induction false} BelowValid(p: seq<Cd>, c: Cd)
    requires ValidPath(p) && ValidCd(c)
    ensures ValidPath(p + [c])
  {
    hide ValidCd;
  }

  lemma {:induction false} HandoverSame(p: seq<Cd>, c: Cd, q: seq<Cd>, a: Alloc)
    requires p != [] && SameCds(p + [c], q)
    ensures SameCds(p, Handover(q, a))
  {
    hide TreeOf;
    forall i | 0 <= i < |p|
      ensures SameCd(p[i], Handover(q, a)[i])
    {
      assert SameCd((p + [c])[i], q[i]);
    }
  }

  /** The answer comes from the log. */
  function Answered(p: seq<Cd>, l: Log): (q: seq<Cd>)
    requires ValidPath(p) && Valid(l) && Top(p).log.mode == ReplayLog
    ensures ValidPath(q) && SameCds(p, q)
  {
    assert ValidCd(Top(p));
    WithTopValid(p, Top(p).(log := l));
    WithTop(p, Top(p).(log := l))
  }

  /** The call goes to MPI and is recorded. */
  function Resumed(p: seq<Cd>, c: Call, m: Mpi): (r: Option<seq<Cd>>)
    requires ValidPath(p) && Legal(c, m)
    ensures r.Some? ==> ValidPath(r.value) && SameCds(p, r.value)
  {
    FlippedValid(p);
    var r := Gen(Flipped(p), c, m);
    assert r.Some? ==> SameCds(p, r.value) by { if r.Some? { FlippedSame(p, r.value); } }
    r
  }

  /** None if a call stops, is answered in part only, or gets another answer than the program went on with. */
  ghost function LiveCall(p: seq<Cd>, c: Call, m: Mpi): (r: Option<seq<Cd>>)
    requires ValidPath(p) && Legal(c, m)
    ensures r.Some? ==> ValidPath(r.value) && SameCds(p, r.value)
  {
    var l := Top(p).log;
    if l.mode == GenerateLog then Gen(p, c, m)
    else
      match RerunCall(l, c)
      case Some(s) => if s.1 == [OutputOf(c, m)] then Some(Answered(p, s.0)) else None
      case None => if Remaining(l) == [] then Resumed(p, c, m) else None
  }

  ghost function LiveRun(p: seq<Cd>, acts: seq<Act>): (r: Option<seq<Cd>>)
    requires ValidPath(p) && LegalActs(acts)
    ensures r.Some? ==> ValidPath(r.value) && SameCds(p, r.value)
    decreases acts
  {
    if acts == [] then Some(p)
    else
      LegalSplit(acts);
      var q :- LiveAct(p, acts[0]);
      LiveRun(q, acts[1..])
  }

  ghost function LiveAct(p: seq<Cd>, a: Act): (r: Option<seq<Cd>>)
    requires ValidPath(p) && LegalAct(a)
    ensures r.Some? ==> ValidPath(r.value) && SameCds(p, r.value)
    decreases a
  {
    match a
    case Do(c, m) => LiveCall(p, c, m)
    case Child(id, body, alloc) =>
      if !ValidCd(Begun(Top(p), id)) then None
      else
        BelowValid(p, Begun(Top(p), id));
        var q :- LiveRun(p + [Begun(Top(p), id)], body);
        HandoverValid(q, alloc);
        HandoverSame(p, Begun(Top(p), id), q, alloc);
        Some(Handover(q, alloc))
  }

  lemma {:induction false} LiveThen(p: seq<Cd>, x: seq<Act>, y: seq<Act>)
    requires ValidPath(p) && LegalActs(x + y) && LegalActs(x) && LegalActs(y)
    ensures LiveRun(p, x + y) == match LiveRun(p, x) case None => None case Some(q) => LiveRun(q, y)
    decreases |x|
  {
    hide Valid, ValidCd, LiveAct, LegalAct;
    if x == [] {
      assert x + y == y;
    } else {
      assert (x + y)[1..] == x[1..] + y && (x + y)[0] == x[0];
      LegalSplit(x);
      LegalSplit(x + y);
      var q := LiveAct(p, x[0]);
      if q.Some? {
        LiveThen(q.value, x[1..], y);
      }
    }
  }

  lemma {:induction false} RunAppend(p: seq<Cd>, x: seq<Act>, y: seq<Act>)
    requires ValidPath(p) && LegalActs(x + y) && LegalActs(x) && LegalActs(y)
    ensures RecordRun(p, x + y) == match RecordRun(p, x) case None => None case Some(q) => RecordRun(q, y)
    decreases |x|
  {
    hide Valid, ValidCd, RecordAct, LegalAct;
    if x == [] {
      assert x + y == y;
    } else {
      assert (x + y)[1..] == x[1..] + y && (x + y)[0] == x[0];
      LegalSplit(x);
      LegalSplit(x + y);
      var q := RecordAct(p, x[0]);
      if q.Some? {
        RunAppend(q.value, x[1..], y);
      }
    }
  }

  // ---- as long as the logs reach ----

  /** Logs that can be unpacked, to any depth. */
  ghost predicate Sound(kids: seq<Tree>)
  {
    forall i :: 0 <= i < |kids| ==> Valid(LogOfTree(kids[i])) && Sound(kids[i].kids)
  }

  lemma {:induction false} MatchIsSound(kids: seq<Tree>, acts: seq<Act>)
    requires MatchKids(kids, acts)
    ensures Sound(kids)
    decreases acts
  {
    hide Represents, Logs;
    if acts != [] {
      var n := |acts| - 1;
      if acts[n].Child? && Logs(acts[n].body) {
        var k := |kids| - 1;
        MatchIsSound(kids[..k], acts[..n]);
        MatchIsSound(kids[k].kids, acts[n].body);
        assert Valid(LogOfTree(kids[k])) by { TreeShape(kids[k], acts[n].body); }
        assert forall i :: 0 <= i < k ==> kids[i] == kids[..k][i];
      } else {
        MatchIsSound(kids, acts[..n]);
      }
    }
  }

  lemma {:induction false} PulledSound(kids: seq<Tree>, id: CDID)
    requires Sound(kids)
    ensures
      var start := Pulled(kids, id);
      Sound(start.1) && ValidCd(Cd(id, true, start.0, start.1, [])) && !start.0.generated
  {
    hide FirstTree;
    assert Valid(EMPTY.(mode := ReplayLog));
  }

  /** A CD that has nothing to push leaves its parent as it was. */
  lemma {:induction false} NothingPushed(p: seq<Cd>, c: Cd, a: Alloc)
    requires p != [] && !c.log.generated && c.incomplete == []
    ensures Handover(p + [c], a) == p
  {
    var q := p + [c];
    assert q[|q| - 2] == Top(p) && q[..|q| - 2] == p[..|p| - 1];
    assert Top(p).incomplete + [] == Top(p).incomplete;
    assert Handover(q, a) == p[..|p| - 1] + [Top(p)];
  }

  /** What is answered as recorded is relived: only the log's cursor moves. */
  lemma {:induction false} LiveReplays(p: seq<Cd>, acts: seq<Act>)
    requires ValidPath(p) && LegalActs(acts) && Top(p).relaxed && Top(p).log.mode == ReplayLog
    requires Valid(Top(p).log) && Sound(Top(p).kids) && Good(Top(p).log, Top(p).kids, acts)
    ensures
      var end := Rerun(Top(p).log, Top(p).kids, acts).value.0;
      LiveRun(p, acts) == Some(WithTop(p, Top(p).(log := end)))
    decreases acts, 0
  {
    hide ValidCd, Valid, Sound, RerunAct, ActOutputs, LegalAct, LiveAct, Remaining, Outputs;
    var c := Top(p);
    if acts == [] {
      assert WithTop(p, c.(log := c.log)) == p;
    } else {
      GoodSplit(c.log, c.kids, acts);
      LiveActReplays(p, acts[0]);
      var l := RerunAct(c.log, c.kids, acts[0]).value.0;
      var q := WithTop(p, c.(log := l));
      assert LiveRun(p, acts) == LiveRun(q, acts[1..]);
      RerunActMoves(c.log, c.kids, acts[0]);
      if l.mode == GenerateLog {
        AtTheEnd(l);
        FlipIsLast(l, c.kids, acts[1..]);
      } else {
        LiveReplays(q, acts[1..]);
        var end := Rerun(l, c.kids, acts[1..]).value.0;
        assert Rerun(c.log, c.kids, acts).value.0 == end;
        assert WithTop(q, Top(q).(log := end)) == WithTop(p, c.(log := end));
      }
    }
  }

  lemma AtTheEnd(l: Log)
    requires Valid(l)
    ensures Remaining(l) == [] <==> l.cursor == |l.table|
  {
    if l.cursor < |l.table| {
      assert Live(l.table[l.cursor]);
    }
  }

  lemma {:induction false} LiveActReplays(p: seq<Cd>, a: Act)
    requires ValidPath(p) && LegalAct(a) && Top(p).relaxed && Top(p).log.mode == ReplayLog
    requires Valid(Top(p).log) && Sound(Top(p).kids) && GoodAct(Top(p).log, Top(p).kids, a)
    ensures
      var l := RerunAct(Top(p).log, Top(p).kids, a).value.0;
      LiveAct(p, a) == Some(WithTop(p, Top(p).(log := l)))
    decreases a, 1
  {
    hide Valid, Sound, Remaining, LegalActs, RerunCall, Gen;
    if a.Child? {
      var c := Top(p);
      var d := Begun(c, a.id);
      PulledSound(c.kids, a.id);
      var q := p + [d];
      GoodChild(c.log, c.kids, a);
      LiveReplays(q, a.body);
      RerunMoves(d.log, d.kids, a.body);
      var e := d.(log := Rerun(d.log, d.kids, a.body).value.0);
      assert WithTop(q, e) == p + [e];
      NothingPushed(p, e, a.alloc);
      assert WithTop(p, c.(log := c.log)) == p;
    }
  }

  // ---- past the end of the logs ----

  /** No child that is begun before the CD itself is back to recording finds a record under its ID. */
  ghost predicate Unnamed(kids: seq<Tree>, acts: seq<Act>)
  {
    forall i :: 0 <= i < |acts| && acts[i].Child? && !Logs(acts[..i]) ==> FirstTree(kids, acts[i].id) == |kids|
  }

  ghost predicate Past(c: Cd, acts: seq<Act>)
  {
    && c.relaxed && Valid(c.log)
    && (c.log.mode == GenerateLog || (Remaining(c.log) == [] && Unnamed(c.kids, acts)))
  }

  lemma {:induction false} PastBegun(c: Cd, acts: seq<Act>, body: seq<Act>)
    requires Past(c, acts) && acts != [] && acts[0].Child?
    ensures
      var d := Begun(c, acts[0].id);
      ValidCd(d) && Past(d, body) && Twin(d, Fresh(acts[0].id)) && !d.log.generated && d.incomplete == []
  {
    hide Logs, Tiled, FirstTree;
    assert Remaining(NOTHING) == [] && Valid(NOTHING) by { NothingAhead(); }
    assert acts[..0] == [];
    assert !Logs([]) by { NoActs(); }
    assert Valid(EMPTY);
  }

  lemma {:induction false} PastRest(c: Cd, acts: seq<Act>)
    requires Past(c, acts) && acts != [] && !Logs([acts[0]])
    ensures Past(c, acts[1..])
  {
    hide Logs, Valid, Remaining, FirstTree;
    forall i | 0 <= i < |acts| - 1 && acts[1..][i].Child? && !Logs(acts[1..][..i]) && Unnamed(c.kids, acts)
      ensures FirstTree(c.kids, acts[1..][i].id) == |c.kids|
    {
      LogsFront(acts[..i + 1]);
      assert acts[..i + 1][1..] == acts[1..][..i];
      assert acts[1..][i] == acts[i + 1];
    }
  }

  /** Acts without a call change nothing. */
  lemma {:induction false} LiveQuiet(p: seq<Cd>, acts: seq<Act>)
    requires ValidPath(p) && LegalActs(acts) && Past(Top(p), acts) && !Logs(acts)
    ensures LiveRun(p, acts) == Some(p)
    decreases acts
  {
    hide ValidCd, Logs, LegalAct, Past, Begun;
    if acts != [] {
      LegalSplit(acts);
      LogsFront(acts);
      LogsOne(acts[0]);
      var a, d := acts[0], Begun(Top(p), acts[0].id);
      PastBegun(Top(p), acts, a.body);
      LegalBody(a);
      LiveQuiet(p + [d], a.body);
      NothingPushed(p, d, a.alloc);
      PastRest(Top(p), acts);
      LiveQuiet(p, acts[1..]);
    }
  }

  lemma {:induction false} CompleteGenerates(p: seq<Cd>, flag: nat)
    requires ValidPath(p) && Complete(p, flag).Some?
    ensures Top(Complete(p, flag).value).log.generated
  {
    hide Valid, Holder, FindFlag, FillPath;
  }

  lemma {:induction false} CompleteAllGenerates(p: seq<Cd>, flags: seq<nat>)
    requires ValidPath(p) && CompleteAll(p, flags).Some? && (flags != [] || Top(p).log.generated)
    ensures Top(CompleteAll(p, flags).value).log.generated
    decreases |flags|
  {
    hide ValidPath, Complete;
    if flags != [] {
      CompleteGenerates(p, flags[0]);
      CompleteAllGenerates(Complete(p, flags[0]).value, flags[1..]);
    }
  }

  /** Whatever is in the log is marked as new. */
  ghost predicate Marked(c: Cd)
  {
    c.log.table != [] ==> c.log.generated
  }

  lemma {:induction false} LogGenerates(p: seq<Cd>, data: seq<byte>, task: nat)
    requires ValidPath(p)
    ensures Top(LogTop(p, data, task)).log.generated
    ensures LogAgain(p, data, task).Some? && Marked(Top(p)) ==> Top(LogAgain(p, data, task).value).log.generated
  {
    hide Valid;
  }

  lemma {:induction false} TestGenerates(p: seq<Cd>, fs: seq<nat>, m: Mpi)
    requires ValidPath(p) && GenTest(p, fs, m).Some? && Marked(Top(p))
    ensures Top(GenTest(p, fs, m).value).log.generated
  {
    hide ValidPath, CompleteAll, LogTop, LogAgain, Int;
    LogGenerates(p, Int(0), 0);
    if m.flag {
      LogGenerates(p, Int(1), 0);
      CompleteAllGenerates(LogTop(p, Int(1), 0), fs);
    }
  }

  lemma {:induction false} PostGenerates(p: seq<Cd>, it: Incomplete, junk: seq<byte>)
    requires ValidPath(p) && it.flag != 0
    ensures Top(Post(p, it, junk)).log.generated
  {
    hide Valid;
  }

  /** A call that is recorded marks the log; one more "not yet" that only counts up leaves the mark as it is. */
  lemma {:induction false} GenGenerates(p: seq<Cd>, c: Call, m: Mpi)
    requires ValidPath(p) && Legal(c, m) && Gen(p, c, m).Some? && Marked(Top(p))
    ensures Top(Gen(p, c, m).value).log.generated
  {
    hide ValidPath, Complete, CompleteAll, GenTest, Post, LogTop, LogAgain, Int, EncInts, Pick;
    match c
    case Send => LogGenerates(p, [], m.task);
    case Recv(_) => LogGenerates(p, m.data, m.task);
    case Sendrecv(_) => LogGenerates(LogTop(p, [], m.task), m.data, m.task);
    case Isend(f, intra) => PostGenerates(p, Incomplete(f, [], false, intra, m.task), m.junk);
    case Irecv(f, _, intra) => PostGenerates(p, Incomplete(f, m.data, true, intra, m.task), m.junk);
    case Test(f) => TestGenerates(p, [f], m);
    case Testall(fs) => TestGenerates(p, fs, m);
    case Testany(fs) =>
      LogGenerates(p, Int(0), 0);
      if m.flag {
        CompleteGenerates(LogTop(LogTop(p, Int(1), 0), Int(m.index), 0), fs[m.index]);
      }
    case Waitall(fs) => CompleteAllGenerates(p, fs);
    case Waitany(fs) => CompleteGenerates(LogTop(p, Int(m.index), 0), fs[m.index]);
    case Waitsome(fs) =>
      LogGenerates(LogTop(p, Int(|m.indices|), 0), EncInts(m.indices), 0);
      CompleteAllGenerates(LogTop(LogTop(p, Int(|m.indices|), 0), EncInts(m.indices), 0), Pick(fs, m.indices));
  }

  /** Acts with a call leave the CD recording, with something new in its log if it was marked before. */
  lemma {:induction false} LiveLoud(p: seq<Cd>, acts: seq<Act>)
    requires ValidPath(p) && LegalActs(acts) && Past(Top(p), acts) && Logs(acts) && LiveRun(p, acts).Some?
    ensures
      var l := Top(LiveRun(p, acts).value).log;
      l.mode == GenerateLog && (Marked(Top(p)) ==> l.generated)
    decreases acts, 3
  {
    hide ValidCd, Logs, LegalAct, LiveAct, Past;
    if acts == [] {
      NoActs();
    } else {
      LegalSplit(acts);
      LogsFront(acts);
      var q := LiveAct(p, acts[0]).value;
      PastNext(p, acts);
      if Logs([acts[0]]) {
        LiveActLoud(p, acts);
      }
      if Logs(acts[1..]) {
        LiveLoud(q, acts[1..]);
      } else {
        LiveQuiet(q, acts[1..]);
      }
    }
  }

  lemma {:induction false} PastNext(p: seq<Cd>, acts: seq<Act>)
    requires ValidPath(p) && acts != [] && LegalActs(acts) && LegalAct(acts[0]) && Past(Top(p), acts)
    requires LiveAct(p, acts[0]).Some?
    ensures Past(Top(LiveAct(p, acts[0]).value), acts[1..])
    ensures !Logs([acts[0]]) ==> LiveAct(p, acts[0]).value == p
    decreases acts, 2
  {
    hide Logs, LegalAct, LiveAct, Remaining, Unnamed, Valid;
    var q := LiveAct(p, acts[0]).value;
    assert SameCd(Top(p), Top(q)) && ValidCd(Top(q));
    if Logs([acts[0]]) {
      LiveActLoud(p, acts);
    } else {
      assert LegalActs([acts[0]]);
      PastFirst(Top(p), acts);
      LiveQuiet(p, [acts[0]]);
      OneAct(p, acts[0]);
      PastRest(Top(p), acts);
    }
  }

  lemma {:induction false} OneAct(p: seq<Cd>, a: Act)
    requires ValidPath(p) && LegalAct(a) && LegalActs([a])
    ensures LiveRun(p, [a]) == LiveAct(p, a)
  {
    hide LiveAct, ValidPath;
    assert [a][1..] == [];
  }

  lemma {:induction false} PastFirst(c: Cd, acts: seq<Act>)
    requires Past(c, acts) && acts != []
    ensures Past(c, [acts[0]])
  {
    hide Logs, Valid, Remaining, FirstTree;
    assert [acts[0]][..0] == acts[..0];
  }

  /** Past the end a call is recorded, with the CD flipped if it was not before. */
  lemma {:induction false} LiveCallPast(p: seq<Cd>, c: Call, m: Mpi) returns (q: seq<Cd>)
    requires ValidPath(p) && Legal(c, m) && (Top(p).log.mode == GenerateLog || Remaining(Top(p).log) == [])
    ensures ValidPath(q) && AllTwins(p, q) && Top(q).log.mode == GenerateLog && LiveCall(p, c, m) == Gen(q, c, m)
  {
    hide Valid, Gen, Remaining, Read;
    FlippedValid(p);
    if Top(p).log.mode == GenerateLog {
      q := p;
    } else {
      q := Flipped(p);
      PastTheEnd(Top(p).log, c);
    }
  }

  lemma {:induction false} LiveActLoud(p: seq<Cd>, acts: seq<Act>)
    requires ValidPath(p) && acts != [] && LegalAct(acts[0]) && Past(Top(p), acts) && Logs([acts[0]])
    requires LiveAct(p, acts[0]).Some?
    ensures
      var l := Top(LiveAct(p, acts[0]).value).log;
      l.mode == GenerateLog && (Marked(Top(p)) ==> l.generated)
    decreases acts, 1
  {
    hide Logs, Valid, Gen, Unnamed, Remaining, LegalActs, LiveRun, LiveCall, Begun;
    var a := acts[0];
    LogsOne(a);
    if a.Do? {
      var q := LiveCallPast(p, a.call, a.mpi);
      assert Twin(Top(p), Top(q));
      assert SameCd(Top(q), Top(Gen(q, a.call, a.mpi).value));
      if Marked(Top(p)) {
        GenGenerates(q, a.call, a.mpi);
      }
    } else {
      PastBegun(Top(p), acts, a.body);
      LegalBody(a);
      var q := p + [Begun(Top(p), a.id)];
      LiveLoud(q, a.body);
      assert SameCd(q[|p| - 1], LiveRun(q, a.body).value[|p| - 1]);
    }
  }

  /** Past the end everything is recorded as in a run that never failed. */
  lemma {:induction false} LiveAhead(p: seq<Cd>, acts: seq<Act>)
    requires ValidPath(p) && LegalActs(acts) && Past(Top(p), acts)
    ensures TwinResults(LiveRun(p, acts), RecordRun(p, acts))
    decreases acts, 2
  {
    hide ValidPath, Logs, LegalAct, LiveAct, RecordAct, Past, AllTwins;
    if acts == [] {
      TwinItself(p);
    } else {
      LegalSplit(acts);
      LiveActAhead(p, acts);
      var x, y, rest := LiveAct(p, acts[0]), RecordAct(p, acts[0]), acts[1..];
      if x.Some? {
        PastNext(p, acts);
        LiveAhead(x.value, rest);
        RunTwins(x.value, y.value, rest);
        TwinsOfTwins(LiveRun(x.value, rest), RecordRun(x.value, rest), RecordRun(y.value, rest));
      }
    }
  }

  lemma TwinItself(p: seq<Cd>)
    ensures AllTwins(p, p)
  {
  }

  lemma {:induction false} TwinsOfTwins(x: Option<seq<Cd>>, y: Option<seq<Cd>>, z: Option<seq<Cd>>)
    requires TwinResults(x, y) && TwinResults(y, z)
    ensures TwinResults(x, z)
  {
  }

  lemma {:induction false} LiveActAhead(p: seq<Cd>, acts: seq<Act>)
    requires ValidPath(p) && acts != [] && LegalAct(acts[0]) && Past(Top(p), acts)
    ensures TwinResults(LiveAct(p, acts[0]), RecordAct(p, acts[0]))
    decreases acts, 1
  {
    hide Valid, Gen, LiveCall, LiveRun, RecordRun, Begun, Unnamed, Remaining, Handover, LegalActs, Logs;
    var a := acts[0];
    if a.Do? {
      var q := LiveCallPast(p, a.call, a.mpi);
      GenTwins(q, p, a.call, a.mpi) by { assert AllTwins(q, p); }
    } else {
      PastBegun(Top(p), acts, a.body);
      LegalBody(a);
      var x, y := p + [Begun(Top(p), a.id)], p + [Fresh(a.id)];
      FreshValid(p, a.id);
      LiveAhead(x, a.body);
      RunTwins(x, y, a.body);
      var u, v := LiveRun(x, a.body), RecordRun(y, a.body);
      TwinsOfTwins(u, RecordRun(x, a.body), v);
      if u.Some? {
        HandoverTwins(u.value, v.value, a.alloc);
      }
    }
  }

  // ---- the CDs above ----

  lemma {:induction false} CompleteAllLeaves(p: seq<Cd>, flags: seq<nat>, i: nat)
    requires ValidPath(p) && i < |p| - 1 && CompleteAll(p, flags).Some?
    ensures CompleteAll(p, flags).value[i].log == p[i].log
    decreases |flags|
  {
    hide ValidPath, Complete;
    if flags != [] {
      CompleteLeavesAncestors(p, flags[0], i);
      CompleteAllLeaves(Complete(p, flags[0]).value, flags[1..], i);
    }
  }

  lemma {:induction false} LogLeaves(p: seq<Cd>, data: seq<byte>, task: nat, i: nat)
    requires ValidPath(p) && i < |p| - 1
    ensures LogTop(p, data, task)[i] == p[i]
    ensures LogAgain(p, data, task).Some? ==> LogAgain(p, data, task).value[i] == p[i]
  {
    hide Valid;
  }

  lemma {:induction false} PostLeaves(p: seq<Cd>, it: Incomplete, junk: seq<byte>, i: nat)
    requires ValidPath(p) && i < |p| - 1 && it.flag != 0
    ensures Post(p, it, junk)[i] == p[i]
  {
    hide Valid;
  }

  lemma {:induction false} TestLeaves(p: seq<Cd>, fs: seq<nat>, m: Mpi, i: nat)
    requires ValidPath(p) && i < |p| - 1 && GenTest(p, fs, m).Some?
    ensures GenTest(p, fs, m).value[i].log == p[i].log
  {
    hide ValidPath, CompleteAll, LogTop, LogAgain, Int;
    LogLeaves(p, Int(0), 0, i);
    if m.flag {
      LogLeaves(p, Int(1), 0, i);
      CompleteAllLeaves(LogTop(p, Int(1), 0), fs, i);
    }
  }

  lemma {:induction false} LogTwoLeaves(p: seq<Cd>, d: seq<byte>, e: seq<byte>, task: nat, i: nat)
    requires ValidPath(p) && i < |p| - 1
    ensures LogTop(LogTop(p, d, task), e, task)[i] == p[i]
  {
    hide ValidPath, LogTop;
    LogLeaves(p, d, task, i);
    LogLeaves(LogTop(p, d, task), e, task, i);
  }

  lemma {:induction false} GenLeaves(p: seq<Cd>, c: Call, m: Mpi, i: nat)
    requires ValidPath(p) && i < |p| - 1 && Legal(c, m) && Gen(p, c, m).Some?
    ensures Gen(p, c, m).value[i].log == p[i].log
  {
    hide ValidPath, Complete, CompleteAll, GenTest, LogTop, LogAgain, Post, Int, EncInts, Pick;
    match c
    case Send => LogLeaves(p, [], m.task, i);
    case Recv(_) => LogLeaves(p, m.data, m.task, i);
    case Sendrecv(_) => LogTwoLeaves(p, [], m.data, m.task, i);
    case Isend(f, intra) => PostLeaves(p, Incomplete(f, [], false, intra, m.task), m.junk, i);
    case Irecv(f, _, intra) => PostLeaves(p, Incomplete(f, m.data, true, intra, m.task), m.junk, i);
    case Test(f) => TestLeaves(p, [f], m, i);
    case Testall(fs) => TestLeaves(p, fs, m, i);
    case Testany(fs) =>
      LogLeaves(p, Int(0), 0, i);
      if m.flag {
        LogTwoLeaves(p, Int(1), Int(m.index), 0, i);
        CompleteLeavesAncestors(LogTop(LogTop(p, Int(1), 0), Int(m.index), 0), fs[m.index], i);
      }
    case Waitall(fs) => CompleteAllLeaves(p, fs, i);
    case Waitany(fs) =>
      LogLeaves(p, Int(m.index), 0, i);
      CompleteLeavesAncestors(LogTop(p, Int(m.index), 0), fs[m.index], i);
    case Waitsome(fs) =>
      LogTwoLeaves(p, Int(|m.indices|), EncInts(m.indices), 0, i);
      CompleteAllLeaves(LogTop(LogTop(p, Int(|m.indices|), 0), EncInts(m.indices), 0), Pick(fs, m.indices), i);
  }

  /** Whatever a CD does, the own logs of the CDs above it stay as they are. */
  lemma {:induction false} LiveLeaves(p: seq<Cd>, acts: seq<Act>, i: nat)
    requires ValidPath(p) && LegalActs(acts) && i < |p| - 1 && LiveRun(p, acts).Some?
    ensures LiveRun(p, acts).value[i].log == p[i].log
    decreases acts, 0
  {
    hide ValidPath, LegalAct, LiveAct;
    if acts != [] {
      LegalSplit(acts);
      LiveActLeaves(p, acts[0], i);
      LiveLeaves(LiveAct(p, acts[0]).value, acts[1..], i);
    }
  }

  lemma {:induction false} LiveActLeaves(p: seq<Cd>, a: Act, i: nat)
    requires ValidPath(p) && LegalAct(a) && i < |p| - 1 && LiveAct(p, a).Some?
    ensures LiveAct(p, a).value[i].log == p[i].log
    decreases a, 1
  {
    hide Valid, LegalActs, LiveRun, Gen, RerunCall, Remaining;
    if a.Do? {
      if Top(p).log.mode == GenerateLog {
        GenLeaves(p, a.call, a.mpi, i);
      } else if RerunCall(Top(p).log, a.call).None? {
        FlippedValid(p);
        GenLeaves(Flipped(p), a.call, a.mpi, i);
      }
    } else {
      LiveLeaves(p + [Begun(Top(p), a.id)], a.body, i);
    }
  }

  // ---- an error on the way ----

  /** Running on up to another interruption: the path of open CDs. The first of them has begun. */
  ghost function OpenLive(p: seq<Cd>, frames: seq<Frame>): (r: Option<seq<Cd>>)
    requires ValidPath(p) && frames != [] && LegalActs(Whole(frames))
    ensures r.Some? ==> ValidPath(r.value) && |r.value| == |p| + |frames| - 1
    decreases |frames|
  {
    LegalFrames(frames);
    var q :- LiveRun(p, frames[0].done);
    if |frames| == 1 then Some(q)
    else if !ValidCd(Begun(Top(q), frames[1].id)) then None
    else
      BelowValid(q, Begun(Top(q), frames[1].id));
      OpenLive(q + [Begun(Top(q), frames[1].id)], frames[1..])
  }

  /** Again, completing the logs of the open CDs on the way up leaves what completing those CDs would have left. */
  lemma {:induction false} LiveWalkIsRun(p: seq<Cd>, frames: seq<Frame>, allocs: seq<Alloc>)
    requires ValidPath(p) && frames != [] && LegalActs(Whole(frames)) && OpenLive(p, frames).Some?
    requires AllocsFit(frames, allocs, |p| - 1)
    ensures LiveRun(p, Whole(frames)) == Some(Escalate(OpenLive(p, frames).value, |p| - 1, allocs))
    decreases |frames|
  {
    hide ValidCd, Handover, LegalActs, LiveRun, Escalate, Begun;
    LegalFrames(frames);
    if |frames| == 1 {
      NoEscalation(OpenLive(p, frames).value, |p| - 1, allocs);
    } else {
      var q, r := LiveRun(p, frames[0].done).value, OpenLive(p, frames).value;
      var rest, b := frames[1..], Begun(Top(q), frames[1].id);
      var a := Child(frames[1].id, Whole(rest), frames[1].alloc);
      BelowValid(q, b);
      LiveWalkIsRun(q + [b], rest, allocs);
      EscalateLast(r, |p| - 1, allocs);
      assert LegalAct(a) && LegalActs([a]) by { LegalLast(frames); }
      LiveThen(p, frames[0].done, [a]);
      OneAct(q, a);
    }
  }

  lemma LegalLast(frames: seq<Frame>)
    requires |frames| > 1 && LegalActs(Whole(frames))
    ensures
      var a := Child(frames[1].id, Whole(frames[1..]), frames[1].alloc);
      LegalAct(a) && LegalActs([a])
  {
    assert LegalAct(Whole(frames)[|frames[0].done|]);
  }

  /**
    A child that pulled its log, and whose last answer in it was "not yet": if all it does after the flip is
    to ask once more and be told the same, nothing is marked as new and its parent keeps the old count.
   */
  lemma {:induction false} OneMorePoll(p: seq<Cd>, c: Cd, f: nat, m: Mpi, a: Alloc)
    requires ValidPath(p) && ValidPath(p + [c]) && !c.log.generated && c.incomplete == [] && !m.flag
    requires c.log.table != [] && FoundRepeated(c.log, INT, true, 0)
    ensures Gen(p + [c], Test(f), m).Some?
    ensures
      var q := Gen(p + [c], Test(f), m).value;
      && Top(q).log.table != c.log.table && SumCounters(Top(q).log.table) == SumCounters(c.log.table) + 1
      && Handover(q, a) == p
  {
    hide Valid, Handover, SumCounters;
    var n := |c.log.table| - 1;
    var e := c.log.table[n];
    var d := c.(log := c.log.(table := c.log.table[n := e.(counter := e.counter + 1)]));
    var q := Gen(p + [c], Test(f), m).value;
    assert q == p + [d];
    assert d.log.table[n] != c.log.table[n];
    OneMoreCounts(c.log.table, e);
    NothingPushed(p, d, a);
  }

  lemma {:induction false} OneMoreCounts(t: seq<Entry>, e: Entry)
    requires t != [] && t[|t| - 1] == e
    ensures SumCounters(t[|t| - 1 := e.(counter := e.counter + 1)]) == SumCounters(t) + 1
    decreases |t|
  {
    var u := t[|t| - 1 := e.(counter := e.counter + 1)];
    if |t| > 1 {
      OneMoreCounts(t[1..], e);
      assert u[1..] == t[1..][|t| - 2 := e.(counter := e.counter + 1)];
    } else {
      assert t[1..] == [] && u[1..] == [];
    }
  }
}
