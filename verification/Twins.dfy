/** Recording does not look at modes and cursors: CDs that differ in nothing else record alike. */
module Twins {
  import opened Bytes
  import opened LogModel
  import opened CdLogs
  import opened Wrappers
  import opened WholeRun

  ghost predicate TwinLogs(l: Log, m: Log)
  {
    m == l.(mode := m.mode, cursor := m.cursor)
  }

  ghost predicate Twin(c: Cd, d: Cd)
  {
    d == c.(log := d.log) && TwinLogs(c.log, d.log)
  }

  ghost predicate AllTwins(p: seq<Cd>, q: seq<Cd>)
  {
    |p| == |q| && forall i :: 0 <= i < |p| ==> Twin(p[i], q[i])
  }

  ghost predicate TwinResults(x: Option<seq<Cd>>, y: Option<seq<Cd>>)
  {
    (x.Some? <==> y.Some?) && (x.Some? ==> AllTwins(x.value, y.value))
  }

  lemma {:induction false} TwinTop(p: seq<Cd>, q: seq<Cd>, c: Cd, d: Cd)
    requires p != [] && AllTwins(p, q) && Twin(c, d)
    ensures AllTwins(WithTop(p, c), WithTop(q, d))
  {
  }

  lemma {:induction false} LogTopTwins(p: seq<Cd>, q: seq<Cd>, data: seq<byte>, task: nat)
    requires ValidPath(p) && ValidPath(q) && AllTwins(p, q)
    ensures AllTwins(LogTop(p, data, task), LogTop(q, data, task))
  {
    hide Valid;
    assert Twin(Top(p), Top(q));
    TwinTop(p, q, Top(LogTop(p, data, task)), Top(LogTop(q, data, task)));
  }

  lemma {:induction false} LogAgainTwins(p: seq<Cd>, q: seq<Cd>, data: seq<byte>, task: nat)
    requires ValidPath(p) && ValidPath(q) && AllTwins(p, q)
    ensures TwinResults(LogAgain(p, data, task), LogAgain(q, data, task))
  {
    hide Valid;
    assert Twin(Top(p), Top(q));
    if LogAgain(p, data, task).Some? {
      TwinTop(p, q, Top(LogAgain(p, data, task).value), Top(LogAgain(q, data, task).value));
    }
  }

  lemma {:induction false} PostTwins(p: seq<Cd>, q: seq<Cd>, it: Incomplete, junk: seq<byte>)
    requires ValidPath(p) && ValidPath(q) && AllTwins(p, q) && it.flag != 0
    ensures AllTwins(Post(p, it, junk), Post(q, it, junk))
  {
    hide Valid;
    assert Twin(Top(p), Top(q));
    TwinTop(p, q, Top(Post(p, it, junk)), Top(Post(q, it, junk)));
  }

  lemma {:induction false} HolderTwins(p: seq<Cd>, q: seq<Cd>, flag: nat)
    requires AllTwins(p, q)
    ensures Holder(p, flag) == Holder(q, flag)
    decreases |p|
  {
    hide FindFlag;
    if p != [] {
      assert Twin(Top(p), Top(q));
      HolderTwins(p[..|p| - 1], q[..|q| - 1], flag);
    }
  }

  lemma {:induction false} FillTwins(l: Log, m: Log, data: seq<byte>, flag: nat)
    requires Valid(l) && Valid(m) && TwinLogs(l, m)
    ensures Fill(l, data, flag).Some? <==> Fill(m, data, flag).Some?
    ensures Fill(l, data, flag).Some? ==> TwinLogs(Fill(l, data, flag).value, Fill(m, data, flag).value)
  {
    hide Tiled, FirstFlag, Splice;
  }

  lemma {:induction false} FillAboveTwins(p: seq<Cd>, q: seq<Cd>, n: nat, data: seq<byte>, flag: nat)
    requires ValidPath(p) && ValidPath(q) && AllTwins(p, q) && n < |p|
    ensures TwinResults(FillAbove(p, n, data, flag), FillAbove(q, n, data, flag))
    decreases n
  {
    hide Valid, FillKid, FirstKid;
    if n > 0 && p[n - 1].relaxed {
      assert Twin(p[n - 1], q[n - 1]);
      if FirstKid(p[n - 1].kids, flag) == |p[n - 1].kids| {
        FillAboveTwins(p, q, n - 1, data, flag);
      }
    }
  }

  lemma {:induction false} FillPathTwins(p: seq<Cd>, q: seq<Cd>, data: seq<byte>, flag: nat)
    requires ValidPath(p) && ValidPath(q) && AllTwins(p, q)
    ensures TwinResults(FillPath(p, data, flag), FillPath(q, data, flag))
  {
    hide Valid, FirstFlag, Fill, FillAbove;
    var c, d := Top(p), Top(q);
    assert Twin(c, d) && ValidCd(c) && ValidCd(d);
    FillTwins(c.log, d.log, data, flag);
    FillAboveTwins(p, q, |p| - 1, data, flag);
    if FirstFlag(c.log.table, flag) < |c.log.table| && Fill(c.log, data, flag).Some? {
      TwinTop(p, q, c.(log := Fill(c.log, data, flag).value), d.(log := Fill(d.log, data, flag).value));
    }
  }

  lemma {:induction false} CompleteTwins(p: seq<Cd>, q: seq<Cd>, flag: nat)
    requires ValidPath(p) && ValidPath(q) && AllTwins(p, q)
    ensures TwinResults(Complete(p, flag), Complete(q, flag))
  {
    hide Valid, FindFlag, Holder, FillPath, LogTop;
    HolderTwins(p, q, flag);
    if Holder(p, flag).Some? {
      var k := Holder(p, flag).value;
      assert Twin(p[k], q[k]);
      var it := p[k].incomplete[FindFlag(p[k].incomplete, flag)];
      FillPathTwins(p, q, it.arrives, flag);
      var x := if it.intra then Some(p) else FillPath(p, it.arrives, flag);
      var y := if it.intra then Some(q) else FillPath(q, it.arrives, flag);
      if x.Some? {
        LogTopTwins(x.value, y.value, [], it.task);
        assert Twin(LogTop(x.value, [], it.task)[k], LogTop(y.value, [], it.task)[k]);
      }
    }
  }

  lemma {:induction false} CompleteAllTwins(p: seq<Cd>, q: seq<Cd>, flags: seq<nat>)
    requires ValidPath(p) && ValidPath(q) && AllTwins(p, q)
    ensures TwinResults(CompleteAll(p, flags), CompleteAll(q, flags))
    decreases |flags|
  {
    hide ValidPath, AllTwins, Complete;
    if flags != [] {
      CompleteTwins(p, q, flags[0]);
      if Complete(p, flags[0]).Some? {
        CompleteAllTwins(Complete(p, flags[0]).value, Complete(q, flags[0]).value, flags[1..]);
      }
    }
  }

  lemma {:induction false} TestTwins(p: seq<Cd>, q: seq<Cd>, fs: seq<nat>, m: Mpi)
    requires ValidPath(p) && ValidPath(q) && AllTwins(p, q)
    ensures TwinResults(GenTest(p, fs, m), GenTest(q, fs, m))
  {
    hide ValidPath, AllTwins, CompleteAll, LogTop, LogAgain, Int;
    LogAgainTwins(p, q, Int(0), 0);
    LogTopTwins(p, q, Int(1), 0);
    CompleteAllTwins(LogTop(p, Int(1), 0), LogTop(q, Int(1), 0), fs);
  }

  lemma {:induction false} LogTwoTwins(p: seq<Cd>, q: seq<Cd>, d: seq<byte>, e: seq<byte>, task: nat)
    requires ValidPath(p) && ValidPath(q) && AllTwins(p, q)
    ensures AllTwins(LogTop(LogTop(p, d, task), e, task), LogTop(LogTop(q, d, task), e, task))
  {
    hide ValidPath, AllTwins, LogTop;
    LogTopTwins(p, q, d, task);
    LogTopTwins(LogTop(p, d, task), LogTop(q, d, task), e, task);
  }

  lemma {:induction false} GenTwins(p: seq<Cd>, q: seq<Cd>, c: Call, m: Mpi)
    requires ValidPath(p) && ValidPath(q) && AllTwins(p, q) && Legal(c, m)
    ensures TwinResults(Gen(p, c, m), Gen(q, c, m))
  {
    hide ValidPath, AllTwins, CompleteAll, Complete, LogTop, LogAgain, Post, Int, EncInts, Pick, GenTest;
    match c
    case Send => LogTopTwins(p, q, [], m.task);
    case Recv(_) => LogTopTwins(p, q, m.data, m.task);
    case Sendrecv(_) => LogTwoTwins(p, q, [], m.data, m.task);
    case Isend(f, intra) => PostTwins(p, q, Incomplete(f, [], false, intra, m.task), m.junk);
    case Irecv(f, _, intra) => PostTwins(p, q, Incomplete(f, m.data, true, intra, m.task), m.junk);
    case Test(f) => TestTwins(p, q, [f], m);
    case Testall(fs) => TestTwins(p, q, fs, m);
    case Testany(fs) =>
      if m.flag {
        LogTwoTwins(p, q, Int(1), Int(m.index), 0);
        CompleteTwins(LogTop(LogTop(p, Int(1), 0), Int(m.index), 0),
                      LogTop(LogTop(q, Int(1), 0), Int(m.index), 0), fs[m.index]);
      } else {
        LogAgainTwins(p, q, Int(0), 0);
      }
    case Waitall(fs) => CompleteAllTwins(p, q, fs);
    case Waitany(fs) =>
      LogTopTwins(p, q, Int(m.index), 0);
      CompleteTwins(LogTop(p, Int(m.index), 0), LogTop(q, Int(m.index), 0), fs[m.index]);
    case Waitsome(fs) =>
      var n, e := Int(|m.indices|), EncInts(m.indices);
      LogTwoTwins(p, q, n, e, 0);
      CompleteAllTwins(LogTop(LogTop(p, n, 0), e, 0), LogTop(LogTop(q, n, 0), e, 0), Pick(fs, m.indices));
  }

  lemma {:induction false} HandoverTwins(p: seq<Cd>, q: seq<Cd>, a: Alloc)
    requires AllTwins(p, q) && |p| >= 2
    ensures AllTwins(Handover(p, a), Handover(q, a))
  {
    assert Twin(Top(p), Top(q)) && Twin(p[|p| - 2], q[|q| - 2]);
  }

  /** So whole runs do, nested CDs and all. */
  lemma {:induction false} RunTwins(p: seq<Cd>, q: seq<Cd>, acts: seq<Act>)
    requires ValidPath(p) && ValidPath(q) && AllTwins(p, q) && LegalActs(acts)
    ensures TwinResults(RecordRun(p, acts), RecordRun(q, acts))
    decreases acts, 0
  {
    hide ValidPath, AllTwins, RecordAct, LegalAct;
    if acts != [] {
      LegalSplit(acts);
      ActTwins(p, q, acts[0]);
      if RecordAct(p, acts[0]).Some? {
        RunTwins(RecordAct(p, acts[0]).value, RecordAct(q, acts[0]).value, acts[1..]);
      }
    }
  }

  lemma {:induction false} ActTwins(p: seq<Cd>, q: seq<Cd>, a: Act)
    requires ValidPath(p) && ValidPath(q) && AllTwins(p, q) && LegalAct(a)
    ensures TwinResults(RecordAct(p, a), RecordAct(q, a))
    decreases a, 1
  {
    hide Valid, ValidCd, Gen, RecordRun, Handover, LegalActs;
    match a
    case Do(c, m) => GenTwins(p, q, c, m);
    case Child(id, body, alloc) =>
      FreshValid(p, id);
      FreshValid(q, id);
      var x, y := p + [Fresh(id)], q + [Fresh(id)];
      RunTwins(x, y, body);
      if RecordRun(x, body).Some? {
        HandoverTwins(RecordRun(x, body).value, RecordRun(y, body).value, alloc);
      }
  }
}
