/** Programs as they are written: the loop that replays, and runs that do not. */
module Patterns {
  import opened Bytes
  import opened LogModel
  import opened PackFormat
  import opened Replay
  import opened CdLogs
  import opened Wrappers
  import opened WholeRun
  import opened WholeReplay
  import opened Requests
  import opened Recital
  import opened LogRollback
  import opened Siblings
  import opened Ledger
  import opened Settled
  import opened OwnRequests

  lemma {:induction false} FirstFlagThere(t: seq<Entry>, f: nat, i: nat)
    requires i < |t| && t[i].flag == f
    ensures FirstFlag(t, f) < |t|
  {
  }

  lemma {:induction false} HolderIsTop(p: seq<Cd>, f: nat)
    requires p != [] && Holds(Top(p), f)
    ensures Holder(p, f) == Some(|p| - 1)
  {
  }

  // ---- the usual loop ----

  function Receive(f: nat, m: Mpi): seq<Act>
  {
    [Do(Irecv(f, |m.data|, false), m), Do(Waitall([f]), m)]
  }

  /** A receive that its CD waits for is completed in the log. */
  lemma {:induction false} ReceiveCompletes(p: seq<Cd>, id: CDID, it: Incomplete, junk: seq<byte>)
    requires ValidPath(p) && Top(p) == Fresh(id) && it.flag != 0 && !it.intra && |junk| == |it.arrives|
    ensures Complete(Post(p, it, junk), it.flag).Some?
  {
    hide Valid, Splice;
    var q := Post(p, it, junk);
    var c := Top(q);
    assert c.incomplete == [it];
    assert |c.log.table| == 1 && c.log.table[0].flag == it.flag && c.log.table[0].length == |it.arrives|;
    FindFlagThere(c.incomplete, it.flag, 0);
    HolderIsTop(q, it.flag);
    FirstFlagThere(c.log.table, it.flag, 0);
    assert Fill(c.log, it.arrives, it.flag).Some?;
  }

  lemma {:induction false} ReceiveRuns(p: seq<Cd>, id: CDID, f: nat, m: Mpi)
    requires ValidPath(p) && Top(p) == Fresh(id) && f != 0 && |m.junk| == |m.data|
    ensures LegalActs(Receive(f, m)) && RecordRun(p, Receive(f, m)).Some?
  {
    hide Valid, ValidCd, Post, Complete;
    var acts := Receive(f, m);
    assert acts[1..] == [acts[1]] && acts[1..][1..] == [];
    var it := Incomplete(f, m.data, true, false, m.task);
    var q := Post(p, it, m.junk);
    ReceiveCompletes(p, id, it, m.junk);
    assert CompleteAll(q, [f]).Some? by { assert [f][1..] == []; }
    assert RecordRun(q, acts[1..]).Some?;
  }

  lemma {:induction false} ReceiveIsOwn(f: nat, m: Mpi)
    requires f != 0 && |m.junk| == |m.data|
    ensures LegalActs(Receive(f, m)) && OwnActs(Receive(f, m), NONE) == Some(Books(map[f := m.data], {}))
  {
    var acts := Receive(f, m);
    assert acts[1..] == [acts[1]] && acts[1..][1..] == [];
    var b, d := Books(map[f := m.data], {f}), Books(map[f := m.data], {});
    assert NONE.used[f := m.data] == map[f := m.data] && NONE.open + {f} == {f};
    assert OwnCall(acts[0].call, m, NONE) == Some(b);
    assert Strike([f], {f}) == Some({}) by {
      assert [f][1..] == [] && {f} - {f} == {};
    }
    assert OwnCall(acts[1].call, m, b) == Some(d);
    assert OwnActs(acts[1..], b) == OwnActs(acts[1..][1..], d) == Some(d);
  }

  /** One child CD per iteration, each receiving at the same address and waiting. */
  function Loop(ids: seq<CDID>, f: nat, ms: seq<Mpi>, a: Alloc): (acts: seq<Act>)
    requires |ids| == |ms|
    ensures |acts| == |ids| && forall i :: 0 <= i < |ids| ==> acts[i] == Child(ids[i], Receive(f, ms[i]), a)
  {
    seq(|ids|, i requires 0 <= i < |ids| => Child(ids[i], Receive(f, ms[i]), a))
  }

  ghost predicate Iterations(ids: seq<CDID>, f: nat, ms: seq<Mpi>)
  {
    |ids| == |ms| && f != 0 && forall i :: 0 <= i < |ms| ==> |ms[i].junk| == |ms[i].data|
  }

  /** Children that share an ID receive the same. */
  ghost predicate SameData(ids: seq<CDID>, ms: seq<Mpi>)
    requires |ids| == |ms|
  {
    forall i, j :: 0 <= i < |ids| && 0 <= j < |ids| && SameCD(ids[i], ids[j]) ==> ms[i].data == ms[j].data
  }

  lemma {:induction false} LoopIsLegal(ids: seq<CDID>, f: nat, ms: seq<Mpi>, a: Alloc)
    requires Iterations(ids, f, ms)
    ensures LegalActs(Loop(ids, f, ms, a))
  {
    hide Receive;
    var acts := Loop(ids, f, ms, a);
    forall i | 0 <= i < |acts|
      ensures LegalAct(acts[i])
    {
      ReceiveIsOwn(f, ms[i]);
    }
  }

  lemma {:induction false} LoopRuns(p: seq<Cd>, ids: seq<CDID>, f: nat, ms: seq<Mpi>, a: Alloc)
    requires ValidPath(p) && Iterations(ids, f, ms) && LegalActs(Loop(ids, f, ms, a))
    ensures RecordRun(p, Loop(ids, f, ms, a)).Some? && OwnActs(Loop(ids, f, ms, a), NONE) == Some(NONE)
    decreases |ids|
  {
    hide Valid, ValidCd, Receive, Handover;
    var acts := Loop(ids, f, ms, a);
    if ids != [] {
      FreshValid(p, ids[0]);
      ReceiveRuns(p + [Fresh(ids[0])], ids[0], f, ms[0]);
      ReceiveIsOwn(f, ms[0]);
      LegalSplit(acts);
      assert acts[1..] == Loop(ids[1..], f, ms[1..], a);
      LoopRuns(RecordAct(p, acts[0]).value, ids[1..], f, ms[1..], a);
    }
  }

  /** The first `k` calls of an iteration. */
  function Part(f: nat, m: Mpi, k: nat): seq<Act>
    requires k <= 2
  {
    Receive(f, m)[..k]
  }

  lemma {:induction false} PartIs(f: nat, m: Mpi, k: nat)
    requires k <= 2
    ensures Part(f, m, 0) == [] && Part(f, m, 1) == [Receive(f, m)[0]] && Part(f, m, 2) == Receive(f, m)
    ensures Text(OwnTrace(Part(f, m, k))) == [m.data, []][..k] && LooseEnd(Part(f, m, k)) == 0
    ensures OwnCallsPlay(Part(f, m, k)) && (Logs(Part(f, m, k)) <==> k > 0)
    ensures forall i :: 0 <= i < k ==> Part(f, m, k)[i].Do?
  {
    var acts := Receive(f, m);
    var x, y := acts[0], acts[1];
    assert acts == [x] + [y] && acts[..|acts| - 1] == [x] && [x][..0] == [];
    OneTrace(x);
    OneTrace(y);
    OwnTraceAppend([x], [y]);
    assert Events(1) == [Fixed([])];
    assert Text([Slot(f, m.data)]) == [m.data] && Text([Slot(f, m.data), Fixed([])]) == [m.data, []];
    assert Text([]) == [];
  }

  /** An iteration that got as far as `k` calls is answered from the record of another exactly if both received the
      same. */
  lemma {:induction false} PartRecites(f: nat, m: Mpi, k: nat, n: Mpi, j: nat)
    requires k <= j <= 2
    ensures Recites(Part(f, m, k), Part(f, n, j)) <==> k == 0 || m.data == n.data
  {
    hide Part, OwnTrace, LooseEnd, OwnCallsPlay, Text;
    PartIs(f, m, k);
    PartIs(f, n, j);
    var x, y := [m.data, []][..k], [n.data, []][..j];
    HearsAll(y, x);
    if k > 0 {
      assert x[0] == m.data && y[0] == n.data;
      assert x <= y <==> m.data == n.data;
    }
  }

  lemma {:induction false} NoOwnTrace(acts: seq<Act>)
    requires forall i :: 0 <= i < |acts| ==> acts[i].Child?
    ensures OwnTrace(acts) == [] && OwnCallsPlay(acts) && Follows(Text(OwnTrace(acts)), acts)
  {
    if acts != [] {
      NoOwnTrace(acts[1..]);
    }
  }

  lemma {:induction false} FirstOfLoop(ids: seq<CDID>, f: nat, ms: seq<Mpi>, a: Alloc, id: CDID)
    requires |ids| == |ms|
    ensures
      var j := FirstLogged(Loop(ids, f, ms, a), id);
      && (j < |ids| ==> SameCD(ids[j], id))
      && (j == |ids| ==> forall i :: 0 <= i < |ids| ==> !SameCD(ids[i], id))
  {
    hide FirstLogged, Receive, Logs;
    var acts := Loop(ids, f, ms, a);
    forall i | 0 <= i < |ids|
      ensures LoggedUnder(acts[i], id) <==> SameCD(ids[i], id)
    {
      PartIs(f, ms[i], 2);
    }
  }

  /** Told by the calls: the loop recites itself exactly if children that share an ID received the same. */
  lemma {:induction false} LoopRecites(ids: seq<CDID>, f: nat, ms: seq<Mpi>, a: Alloc)
    requires |ids| == |ms|
    ensures Recites(Loop(ids, f, ms, a), Loop(ids, f, ms, a)) <==> SameData(ids, ms)
  {
    hide Receive, Logs, FirstLogged, OwnTrace, Follows, Text, OwnCallsPlay, Part;
    var acts := Loop(ids, f, ms, a);
    NoOwnTrace(acts);
    forall i | 0 <= i < |ids|
      ensures
        var j := FirstLogged(acts, ids[i]);
        j < |ids| && SameCD(ids[j], ids[i]) && (KidRecites(acts[i], acts) <==> ms[i].data == ms[j].data)
    {
      FirstOfLoop(ids, f, ms, a, ids[i]);
      assert SameCD(ids[i], ids[i]);
      var j := FirstLogged(acts, ids[i]);
      PartIs(f, ms[i], 2);
      PartIs(f, ms[j], 2);
      PartRecites(f, ms[i], 2, ms[j], 2);
    }
    if Recites(acts, acts) {
      forall i, k | 0 <= i < |ids| && 0 <= k < |ids| && SameCD(ids[i], ids[k])
        ensures ms[i].data == ms[k].data
      {
        SameFirst(acts, ids[i], ids[k]);
        assert KidRecites(acts[i], acts) && KidRecites(acts[k], acts);
      }
    }
  }

  /**
    The usual loop, any number of iterations, each receiving at the same address: it is recorded without
    complaint, and it replays exactly if the children that share an ID all received the same. A child made
    with Create and Destroy in every iteration shares its ID with all the others.
   */
  lemma {:induction false} LoopReplays(root: CDID, ids: seq<CDID>, f: nat, ms: seq<Mpi>, a: Alloc)
    requires Iterations(ids, f, ms)
    ensures
      var frames := [Frame(root, Loop(ids, f, ms, a), a)];
      && LegalActs(Whole(frames)) && OpenRun([], frames).Some?
      && var c := Top(RollBack(OpenRun([], frames).value, 0, [a]));
      Valid(c.log) && (Resumes(c.log, c.kids, frames) <==> SameData(ids, ms))
  {
    hide Valid, ValidCd, Loop, Resumes, RollBack, RecordRun, LegalActs, OwnActs, Recites, SameData, Distinct;
    var frames := [Frame(root, Loop(ids, f, ms, a), a)];
    LoopIsLegal(ids, f, ms, a);
    BeginValid([], root);
    var p := [] + [Fresh(root)];
    LoopRuns(p, ids, f, ms, a);
    assert OpenRun([], frames) == RecordRun(p, Loop(ids, f, ms, a));
    LoopRecites(ids, f, ms, a);
    SelfContainedReplays(frames, [a]);
  }

  // ---- a child made again ----

  function Recreate(id: CDID, m: Mpi, n: Mpi, a: Alloc): seq<Act>
  {
    [Child(id, [Do(Recv(|m.data|), m)], a), Child(id, [Do(Recv(|n.data|), n)], a)]
  }

  lemma {:induction false} RecvRuns(p: seq<Cd>, id: CDID, m: Mpi, a: Alloc)
    requires ValidPath(p)
    ensures
      var c := Child(id, [Do(Recv(|m.data|), m)], a);
      LegalAct(c) && RecordAct(p, c).Some? && OwnAct(c, NONE) == Some(NONE)
  {
    hide Valid, ValidCd, LogTop, Handover;
    var body := [Do(Recv(|m.data|), m)];
    assert LegalAct(body[0]) && body[1..] == [];
    FreshValid(p, id);
    assert RecordRun(p + [Fresh(id)], body).Some?;
    assert Strike([], {}) == Some({});
    assert OwnCall(Recv(|m.data|), m, NONE) == Some(NONE);
    assert OwnActs(body[1..], NONE) == Some(NONE) && OwnActs(body, NONE) == Some(NONE);
  }

  /**
    Two messages of one length, each received in a child CD created for it under the same ID. The second
    child is answered with the first message: wrong data, and no error.
   */
  lemma {:induction false} RecreatedChild(root: CDID, id: CDID, m: Mpi, n: Mpi, a: Alloc)
    requires |m.data| == |n.data|
    ensures
      var p, acts := [Fresh(root)], Recreate(id, m, n, a);
      && ValidPath(p) && LegalActs(acts) && LegalAct(acts[1]) && RecordRun(p, acts).Some?
      && var c := Top(RecordRun(p, acts).value);
      && Valid(ReInit(c.log))
      && RerunAct(ReInit(c.log), c.kids, acts[1]) == Some((ReInit(c.log), [Payload(m.data)]))
      && (Good(ReInit(c.log), c.kids, acts) <==> m.data == n.data)
  {
    hide Valid, ValidCd, RecordAct, Good, LegalAct, RerunAct;
    var p, acts := [Fresh(root)], Recreate(id, m, n, a);
    BeginValid([], root);
    assert [] + p == p;
    RecvRuns(p, id, m, a);
    var q := RecordAct(p, acts[0]).value;
    RecvRuns(q, id, n, a);
    assert acts[1..] == [acts[1]] && acts[1..][1..] == [];
    assert LegalActs(acts) && LegalActs(acts[1..]);
    assert RecordRun(q, acts[1..]).Some?;
    var c := Top(RecordRun(p, acts).value);
    RecordedShows(p, acts);
    FirstAnswers(c, id, m, n, a);
    RecvRecites(id, m, n, a);
    assert OwnActs(acts[1..], NONE) == Some(NONE) && OwnActs(acts, NONE) == Some(NONE);
    RunReplays(root, acts);
    SelfContainedSettles(acts);
  }

  lemma {:induction false} RecvRecites(id: CDID, m: Mpi, n: Mpi, a: Alloc)
    ensures Recites(Recreate(id, m, n, a), Recreate(id, m, n, a)) <==> m.data == n.data
  {
    hide OwnTrace, Follows, Text, OwnCallsPlay, Logs, Recites;
    var acts := Recreate(id, m, n, a);
    NoOwnTrace(acts);
    RecvOutputs(m);
    assert SameCD(id, id);
    assert LoggedUnder(acts[0], id);
    assert FirstLogged(acts, id) == 0;
    OneRecvRecites(m, m);
    OneRecvRecites(n, m);
    assert KidRecites(acts[0], acts) && (KidRecites(acts[1], acts) <==> m.data == n.data);
    assert Recites(acts, acts) <==> KidRecites(acts[0], acts) && KidRecites(acts[1], acts) by { TwoKids(acts); }
  }

  lemma TwoKids(acts: seq<Act>)
    requires |acts| == 2 && acts[0].Child? && acts[1].Child?
    requires OwnCallsPlay(acts) && Follows(Text(OwnTrace(acts)), acts)
    ensures Recites(acts, acts) <==> KidRecites(acts[0], acts) && KidRecites(acts[1], acts)
  {
  }

  lemma {:induction false} OneRecvRecites(m: Mpi, n: Mpi)
    ensures Recites([Do(Recv(|m.data|), m)], [Do(Recv(|n.data|), n)]) <==> m.data == n.data
  {
    var x, y := Do(Recv(|m.data|), m), Do(Recv(|n.data|), n);
    OneTrace(x);
    OneTrace(y);
    var u, v := [m.data], [n.data];
    assert Text(OwnTrace([x])) == u && Text(OwnTrace([y])) == v;
    HearsAll(v, u);
    assert u <= v <==> u[0] == v[0];
  }

  lemma {:induction false} RecvOutputs(m: Mpi)
    ensures
      var body := [Do(Recv(|m.data|), m)];
      Outputs(body) == [Payload(m.data)] && Logs(body)
  {
    var body := [Do(Recv(|m.data|), m)];
    assert body[1..] == [] && body[..0] == [] && body[0].Do?;
    assert Outputs(body) == ActOutputs(body[0]) + [];
  }

  lemma {:induction false} FirstAnswers(c: Cd, id: CDID, m: Mpi, n: Mpi, a: Alloc)
    requires |m.data| == |n.data| && Shows(c, OwnTrace(Recreate(id, m, n, a)), Recreate(id, m, n, a))
    ensures LegalAct(Recreate(id, m, n, a)[1]) && Valid(ReInit(c.log))
    ensures RerunAct(ReInit(c.log), c.kids, Recreate(id, m, n, a)[1]) == Some((ReInit(c.log), [Payload(m.data)]))
  {
    hide MatchKids, Ahead, Tiled, Rerun, RerunAct;
    var acts := Recreate(id, m, n, a);
    var x, y := acts[0], acts[1];
    assert LegalAct(x.body[0]) && LegalAct(y.body[0]);
    assert SameCD(id, id) && SameAct(y.body[0], x.body[0]) && SameAct(y, x);
    RecvOutputs(m);
    assert FirstLogged(acts, id) == 0;
    FoundKid(c.kids, acts, id);
    var t := c.kids[FirstTree(c.kids, id)];
    TreeShape(t, x.body);
    AgreesFixed(Remaining(LogOfTree(t)), x.body, m);
    ReplayActs(LogOfTree(t), t.kids, x.body);
    assert GoodKid(c.kids, x);
    NamesakeAnswers(ReInit(c.log), c.kids, y, x);
  }

  lemma {:induction false} AgreesFixed(items: seq<Item>, body: seq<Act>, m: Mpi)
    requires body == [Do(Recv(|m.data|), m)] && AgreesAll(items, OwnTrace(body))
    ensures DeliveredAll(items, OwnTrace(body)) && OwnCallsPlay(body)
  {
    assert body[1..] == [];
    assert OwnTrace(body) == [Fixed(m.data)] + [];
    assert forall i :: 0 <= i < |items| ==> Agrees(items[i], OwnTrace(body)[i]);
  }

  // ---- children with different labels ----

  /** The same with two labels, so that Begin gives the children different phases: each gets its own message back. */
  lemma {:induction false} TwoLabels(root: CDID, id: CDID, phase: nat, m: Mpi, n: Mpi, a: Alloc)
    requires phase != id.phase
    ensures
      var p := [Fresh(root)];
      var acts := [Child(id, [Do(Recv(|m.data|), m)], a), Child(id.(phase := phase), [Do(Recv(|n.data|), n)], a)];
      && ValidPath(p) && LegalActs(acts) && RecordRun(p, acts).Some?
      && var c := Top(RecordRun(p, acts).value);
      Valid(ReInit(c.log)) && Good(ReInit(c.log), c.kids, acts)
  {
    hide Valid, ValidCd, RecordAct, Good, LegalAct;
    var p, x, y := [Fresh(root)], Child(id, [Do(Recv(|m.data|), m)], a),
                   Child(id.(phase := phase), [Do(Recv(|n.data|), n)], a);
    var acts := [x, y];
    BeginValid([], root);
    assert [] + p == p;
    RecvRuns(p, id, m, a);
    var q := RecordAct(p, x).value;
    RecvRuns(q, y.id, n, a);
    assert acts[1..] == [y] && acts[1..][1..] == [];
    assert LegalActs(acts) && LegalActs(acts[1..]);
    assert RecordRun(q, acts[1..]).Some?;
    assert OwnActs(acts[1..], NONE) == Some(NONE) && OwnActs(acts, NONE) == Some(NONE);
    SameButThree(x.id, y.id);
    SameButThree(y.id, x.id);
    assert Distinct(x.body) && Distinct(y.body);
    assert Distinct(acts);
    RunReplays(root, acts);
    SelfContainedSettles(acts);
  }

  // ---- and runs that fail ----

  function StartOnly(f: nat, m: Mpi): seq<Act>
  {
    [Do(Irecv(f, |m.data|, false), m)]
  }

  /** The parent after its child has started a receive and completed without waiting for it. */
  lemma {:induction false} AfterChild(root: CDID, id: CDID, f: nat, m: Mpi, a: Alloc)
    requires f != 0 && |m.junk| == |m.data|
    ensures
      var child := Child(id, StartOnly(f, m), a);
      && ValidPath([Fresh(root)]) && LegalAct(child) && RecordAct([Fresh(root)], child).Some?
      && var q := RecordAct([Fresh(root)], child).value;
      && |q| == 1 && q[0].log.table == [] && q[0].incomplete == [Incomplete(f, m.data, true, false, m.task)]
      && |q[0].kids| == 1 && |q[0].kids[0].table| == 1 && !q[0].kids[0].table[0].completed
  {
    hide Valid, ValidCd;
    var p := [Fresh(root)];
    BeginValid([], root);
    assert [] + p == p;
    FreshValid(p, id);
    var body := StartOnly(f, m);
    var start := p + [Fresh(id)];
    assert LegalAct(body[0]) && body[1..] == [];
    var r := Post(start, Incomplete(f, m.data, true, false, m.task), m.junk);
    assert RecordRun(start, body) == Some(r);
    assert Top(r).log.generated && r[0] == Fresh(root);
  }

  lemma {:induction false} WaitedInParent(q: seq<Cd>, it: Incomplete)
    requires ValidPath(q) && |q| == 1 && q[0].log.table == [] && q[0].incomplete == [it] && !it.intra
    ensures Complete(q, it.flag).Some?
    ensures
      var r := Complete(q, it.flag).value;
      |r| == 1 && r[0].kids == q[0].kids && r[0].incomplete == []
  {
    hide Valid, ValidCd, LogTop;
    FindFlagThere(q[0].incomplete, it.flag, 0);
    HolderIsTop(q, it.flag);
    assert FillPath(q, it.arrives, it.flag) == Some(q);
    CompleteDropsNote(q, it.flag);
    CompleteLeavesOwnKids(q, it.flag);
  }

  /** An act followed by a wait for one request. */
  lemma {:induction false} RunOfTwo(p: seq<Cd>, a: Act, f: nat, m: Mpi, q: seq<Cd>, r: seq<Cd>)
    requires ValidPath(p) && LegalAct(a) && RecordAct(p, a) == Some(q) && Complete(q, f) == Some(r)
    ensures LegalActs([a, Do(Waitall([f]), m)]) && RecordRun(p, [a, Do(Waitall([f]), m)]) == Some(r)
  {
    hide Valid, ValidCd, Complete, RecordAct;
    var acts := [a, Do(Waitall([f]), m)];
    assert [f][1..] == [] && acts[1..] == [acts[1]] && acts[1..][1..] == [];
    assert CompleteAll(q, [f]) == CompleteAll(r, [f][1..]) == Some(r);
    assert RecordAct(q, acts[1]) == Some(r) by { WaitIsCompleteAll(q, f, m); }
    assert RecordRun(q, acts[1..]) == Some(r);
  }

  lemma {:induction false} WaitIsCompleteAll(q: seq<Cd>, f: nat, m: Mpi)
    requires ValidPath(q)
    ensures LegalAct(Do(Waitall([f]), m)) && RecordAct(q, Do(Waitall([f]), m)) == CompleteAll(q, [f])
  {
    hide Valid, ValidCd, CompleteAll;
  }

  /** A log with an open record does not answer the acts it shows. */
  lemma {:induction false} OpenRecordFails(l: Log, kids: seq<Tree>, acts: seq<Act>, i: nat)
    requires Valid(l) && l.mode == ReplayLog && l.cursor == 0 && LegalActs(acts)
    requires AgreesAll(Remaining(l), OwnTrace(acts)) && i < |l.table| && !l.table[i].completed
    ensures !Good(l, kids, acts)
  {
    hide LegalActs, Ahead, Tiled, Good, AgreesAll, OwnTrace;
    ReplayActs(l, kids, acts);
    if DeliveredAll(Remaining(l), OwnTrace(acts)) {
      DeliveredIsComplete(l, 0, OwnTrace(acts));
    }
  }

  lemma {:induction false} OpenRootFails(root: CDID, acts: seq<Act>, i: nat)
    requires ValidPath([Fresh(root)]) && LegalActs(acts) && RecordRun([Fresh(root)], acts).Some?
    requires
      var t := Top(RecordRun([Fresh(root)], acts).value).log.table;
      i < |t| && !t[i].completed
    ensures
      var c := Top(RecordRun([Fresh(root)], acts).value);
      Valid(ReInit(c.log)) && !Good(ReInit(c.log), c.kids, acts)
  {
    hide RecordRun, LegalActs, Good, Ahead, Tiled, MatchKids, Logs, OwnTrace;
    RecordedShows([Fresh(root)], acts);
    var c := Top(RecordRun([Fresh(root)], acts).value);
    SameBooks(c.log, ReInit(c.log), OwnTrace(acts));
    OpenRecordFails(ReInit(c.log), c.kids, acts, i);
  }

  /** Nor does a root whose first child left a record open. */
  lemma {:induction false} OpenKidFails(root: CDID, acts: seq<Act>, i: nat)
    requires ValidPath([Fresh(root)]) && LegalActs(acts) && RecordRun([Fresh(root)], acts).Some?
    requires acts != [] && acts[0].Child? && Logs(acts[0].body)
    requires
      var kids := Top(RecordRun([Fresh(root)], acts).value).kids;
      kids != [] && i < |kids[0].table| && !kids[0].table[i].completed
    ensures
      var c := Top(RecordRun([Fresh(root)], acts).value);
      Valid(ReInit(c.log)) && !Good(ReInit(c.log), c.kids, acts)
  {
    hide RecordRun, Good, Ahead, Tiled, MatchKids, Logs, OwnTrace, LegalAct, FirstTree, FirstLogged;
    RecordedShows([Fresh(root)], acts);
    var c := Top(RecordRun([Fresh(root)], acts).value);
    ShownReplays(c, acts);
    var a := acts[0];
    assert LegalAct(a);
    LegalBody(a);
    FoundKid(c.kids, acts, a.id);
    assert SameCD(a.id, a.id) && LoggedUnder(a, a.id) && FirstLogged(acts, a.id) == 0;
    assert acts[..0] == [] && Records([]) == 0;
    TreeShape(c.kids[0], a.body);
    OpenRecordFails(LogOfTree(c.kids[0]), c.kids[0].kids, a.body, i);
    assert !GoodKid(c.kids, a);
  }

  /**
    A child starts a receive and its parent waits for it: nothing is outstanding, and yet the run does not
    replay, because the completion did not reach the child's packed log.
   */
  lemma {:induction false} ParentWaits(root: CDID, id: CDID, f: nat, m: Mpi, a: Alloc)
    requires f != 0 && |m.junk| == |m.data|
    ensures
      var p, acts := [Fresh(root)], [Child(id, StartOnly(f, m), a), Do(Waitall([f]), m)];
      && ValidPath(p) && LegalActs(acts) && RecordRun(p, acts).Some?
      && var q := RecordRun(p, acts).value;
      && Notes(q) == []
      && Valid(ReInit(Top(q).log)) && !Good(ReInit(Top(q).log), Top(q).kids, acts)
  {
    hide Valid, ValidCd, RecordAct, Good, StartOnly, Complete, Notes, RecordRun;
    var p, acts := [Fresh(root)], [Child(id, StartOnly(f, m), a), Do(Waitall([f]), m)];
    AfterChild(root, id, f, m, a);
    var q := RecordAct(p, acts[0]).value;
    WaitedInParent(q, q[0].incomplete[0]);
    var r := Complete(q, f).value;
    RunOfTwo(p, acts[0], f, m, q, r);
    NoNotesOne(r);
    StartLogs(f, m);
    OpenKidFails(root, acts, 0);
  }

  lemma StartLogs(f: nat, m: Mpi)
    ensures Logs(StartOnly(f, m))
  {
  }

  lemma NoNotesOne(r: seq<Cd>)
    requires |r| == 1 && r[0].incomplete == []
    ensures Notes(r) == []
  {
    assert r[1..] == [];
  }

  /** A message sent inside the CD and waited for there: completed, and yet the run does not replay. */
  lemma {:induction false} InnerSendStays(root: CDID, f: nat, m: Mpi)
    requires f != 0 && m.junk == []
    ensures
      var p, acts := [Fresh(root)], [Do(Isend(f, true), m), Do(Waitall([f]), m)];
      && ValidPath(p) && LegalActs(acts) && RecordRun(p, acts).Some?
      && var q := RecordRun(p, acts).value;
      && Notes(q) == []
      && Valid(ReInit(Top(q).log)) && !Good(ReInit(Top(q).log), Top(q).kids, acts)
  {
    hide Valid, ValidCd, Good, Complete, Notes, RecordRun;
    var p, acts := [Fresh(root)], [Do(Isend(f, true), m), Do(Waitall([f]), m)];
    BeginValid([], root);
    assert [] + p == p;
    var it := Incomplete(f, [], false, true, m.task);
    var q := Post(p, it, m.junk);
    assert RecordAct(p, acts[0]) == Some(q);
    InnerWait(q, it);
    var r := Complete(q, f).value;
    RunOfTwo(p, acts[0], f, m, q, r);
    NoNotesOne(r);
    OpenRootFails(root, acts, 0);
  }

  lemma {:induction false} InnerWait(q: seq<Cd>, it: Incomplete)
    requires ValidPath(q) && |q| == 1 && q[0].incomplete == [it] && it.intra
    requires q[0].log.table != [] && !q[0].log.table[0].completed
    ensures Complete(q, it.flag).Some?
    ensures
      var r := Complete(q, it.flag).value;
      |r| == 1 && r[0].incomplete == [] && r[0].log.table != [] && !r[0].log.table[0].completed
  {
    hide Valid, ValidCd;
    FindFlagThere(q[0].incomplete, it.flag, 0);
    HolderIsTop(q, it.flag);
    CompleteDropsNote(q, it.flag);
    IntraStaysOpen(q, it.flag);
  }

  // ---- and one that goes wrong silently ----

  /** A child receives at `f` and waits; its parent receives at `f`; another child waits for that. */
  function Reuse(a: CDID, b: CDID, f: nat, m: Mpi, n: Mpi, alloc: Alloc): seq<Act>
  {
    [Child(a, Receive(f, m), alloc), Do(Irecv(f, |n.data|, false), n), Child(b, [Do(Waitall([f]), n)], alloc)]
  }

  /** On paper: the page before the last act, and what that does to the first child's record. */
  lemma {:induction false} ReuseOnPaper(a: CDID, b: CDID, f: nat, m: Mpi, n: Mpi, alloc: Alloc)
    requires f != 0 && |m.junk| == |m.data| == |n.data| == |n.junk|
    ensures
      var acts := Reuse(a, b, f, m, n, alloc);
      var it := Incomplete(f, n.data, true, false, n.task);
      var g := Page([Hole(f, |n.data|)], [Leaf([Data(f, m.data)], [])], [it]);
      && LegalAct(acts[0]) && LegalAct(acts[1]) && LegalAct(acts[2])
      && PageAct(PageAct([BLANK], acts[0]), acts[1]) == [g]
      && PageAct([g], acts[2])[0].kids != [] && PageAct([g], acts[2])[0].kids[0] == Leaf([Data(f, n.data)], [])
      && PageAct([g], acts[2])[0].reqs == g.reqs
  {
    var g := Page([Hole(f, |n.data|)], [Leaf([Data(f, m.data)], [])], [Incomplete(f, n.data, true, false, n.task)]);
    ReuseBegins(a, b, f, m, n, alloc);
    hide PageRun, LegalActs, PageCall, PageAct, Fold;
    WaitBelow(g, f, n);
    ReuseEnds(g, b, f, n, alloc);
    FoldKeeps(PageCall([g] + [BLANK], Waitall([f]), n), Logs([Do(Waitall([f]), n)]));
  }

  lemma {:induction false} ReuseEnds(g: Page, b: CDID, f: nat, n: Mpi, alloc: Alloc)
    ensures
      var w := [Do(Waitall([f]), n)];
      && LegalAct(Child(b, w, alloc))
      && PageAct([g], Child(b, w, alloc)) == Fold(PageCall([g] + [BLANK], Waitall([f]), n), Logs(w))
  {
    hide PageCall, Fold, Logs;
    var w := [Do(Waitall([f]), n)];
    assert LegalAct(w[0]) && w[1..] == [];
    assert PageRun([g] + [BLANK], w) == PageCall([g] + [BLANK], Waitall([f]), n);
  }

  lemma FoldKeeps(h: seq<Page>, logged: bool)
    requires |h| == 2 && h[0].kids != []
    ensures
      var up := Fold(h, logged)[0];
      up.kids != [] && up.kids[0] == h[0].kids[0] && up.reqs == h[0].reqs
  {
  }

  lemma {:induction false} ReuseBegins(a: CDID, b: CDID, f: nat, m: Mpi, n: Mpi, alloc: Alloc)
    requires f != 0 && |m.junk| == |m.data| == |n.data| == |n.junk|
    ensures
      var acts := Reuse(a, b, f, m, n, alloc);
      var it := Incomplete(f, n.data, true, false, n.task);
      && LegalAct(acts[0]) && LegalAct(acts[1])
      && PageAct(PageAct([BLANK], acts[0]), acts[1]) == [Page([Hole(f, |n.data|)], [Leaf([Data(f, m.data)], [])], [it])]
  {
    Nothing([Leaf([Data(f, m.data)], [])], [Hole(f, |n.data|)], Incomplete(f, n.data, true, false, n.task));
    var acts := Reuse(a, b, f, m, n, alloc);
    ReceiveIsOwn(f, m);
    ReceiveOnPaper(f, m);
    var h := [Page([], [Leaf([Data(f, m.data)], [])], [])];
    var c := Receive(f, m);
    assert Logs(c) by { assert c[..|c| - 1] == [c[0]]; }
    assert Fold([BLANK, Page([Data(f, m.data)], [], [])], true) == h;
    assert [BLANK] + [BLANK] == [BLANK, BLANK];
    hide PageRun, LegalActs, Receive, Fold, Logs;
    assert PageAct([BLANK], acts[0]) == h;
    var it := Incomplete(f, n.data, true, false, n.task);
    assert Open(h, it) == [Page([Hole(f, |n.data|)], [Leaf([Data(f, m.data)], [])], [it])];
  }

  lemma Nothing(kids: seq<Leaf>, reqs: seq<Item>, it: Incomplete)
    ensures [] + kids == kids && [] + reqs == reqs && [] + [it] == [it]
    ensures var none: seq<Incomplete> := []; none + none == none
  {
  }

  lemma {:induction false} ReceiveOnPaper(f: nat, m: Mpi)
    requires f != 0 && |m.junk| == |m.data|
    ensures LegalActs(Receive(f, m))
    ensures PageRun([BLANK, BLANK], Receive(f, m)) == [BLANK, Page([Data(f, m.data)], [], [])]
  {
    Nothing([], [Hole(f, |m.data|)], Incomplete(f, m.data, true, false, m.task));
    ReceiveIsOwn(f, m);
    var acts := Receive(f, m);
    var it := Incomplete(f, m.data, true, false, m.task);
    var g := [BLANK, Page([Hole(f, |m.data|)], [], [it])];
    assert Open([BLANK, BLANK], it) == g;
    assert acts[1..] == [acts[1]] && acts[1..][1..] == [] && LegalAct(acts[0]) && LegalAct(acts[1]);
    assert FindFlag([it], f) == 0 && Keeper(g, f) == Some(1);
    assert Remove([it], 0) == [];
    var h := [BLANK, Page([Data(f, m.data)], [], [])];
    assert FirstReq([Hole(f, |m.data|)], f) == 0;
    assert Deliver([Hole(f, |m.data|)], m.data, f) == [Data(f, m.data)];
    assert Close(g, f) == h;
    assert [f][1..] == [] && CloseAll(g, [f]) == h;
    assert PageAct(g, acts[1]) == h && PageRun(g, acts[1..]) == h;
  }

  lemma {:induction false} WaitBelow(g: Page, f: nat, n: Mpi)
    requires g.notes == [Incomplete(f, n.data, true, false, n.task)] && |g.kids| == 1
    requires |g.kids[0].reqs| == 1 && g.kids[0].reqs[0].flag == f
    ensures
      var h := PageCall([g] + [BLANK], Waitall([f]), n);
      |h| == 2 && h[0].kids == [g.kids[0].(reqs := [Data(f, n.data)])] && h[0].reqs == g.reqs && h[1] == BLANK
  {
    var p := [g] + [BLANK];
    assert p[..1] == [g];
    assert FindFlag(BLANK.notes, f) == 0 && FindFlag(g.notes, f) == 0;
    assert Keeper([g], f) == Some(0) && Keeper(p, f) == Some(0);
    assert FirstReq(g.kids[0].reqs, f) == 0 && FirstLeaf(g.kids, f) == 0;
    assert Deliver(g.kids[0].reqs, n.data, f) == [Data(f, n.data)];
    assert [f][1..] == [] && CloseAll(p, [f]) == CloseAll(Close(p, f), []);
  }

  /** In the logs too: the run is recorded without complaint, and it cannot be replayed. */
  lemma {:induction false} ReuseOverwrites(root: CDID, a: CDID, b: CDID, f: nat, m: Mpi, n: Mpi, alloc: Alloc)
    requires f != 0 && |m.junk| == |m.data| == |n.data| == |n.junk|
    ensures
      var p, acts := [Fresh(root)], Reuse(a, b, f, m, n, alloc);
      && ValidPath(p) && LegalActs(acts) && RecordRun(p, acts).Some?
      && Top(RecordRun(p, acts).value).kids != []
      && var t := Top(RecordRun(p, acts).value).kids[0];
      && Valid(LogOfTree(t)) && Reqs(LogOfTree(t), 0) == [Data(f, n.data)]
      && var c := Top(RecordRun(p, acts).value);
      Valid(ReInit(c.log)) && !Good(ReInit(c.log), c.kids, acts)
  {
    hide Valid, ValidCd, SimLog, SimTree, RecordAct, PageAct, RecordRun;
    var p, acts := [Fresh(root)], Reuse(a, b, f, m, n, alloc);
    BeginValid([], root);
    assert [] + p == p;
    ReuseOnPaper(a, b, f, m, n, alloc);
    FreshSim(root);
    assert Sim(p, [BLANK]);
    FirstTwo(p, a, b, f, m, n, alloc);
    var q := RecordAct(RecordAct(p, acts[0]).value, acts[1]).value;
    var it := Incomplete(f, n.data, true, false, n.task);
    var g := Page([Hole(f, |n.data|)], [Leaf([Data(f, m.data)], [])], [it]);
    LastRuns(q, g, b, f, m, n, alloc);
    ActSim(q, [g], acts[2]);
    RunOfThree(p, acts);
    var r := RecordAct(q, acts[2]).value;
    Overwritten(root, acts, r, PageAct([g], acts[2])[0], f, n);
  }

  lemma {:induction false} Overwritten(root: CDID, acts: seq<Act>, r: seq<Cd>, g: Page, f: nat, n: Mpi)
    requires ValidPath([Fresh(root)]) && LegalActs(acts) && RecordRun([Fresh(root)], acts) == Some(r)
    requires f != 0 && Sim(r, [g])
    requires g.reqs == [Hole(f, |n.data|)] && g.kids != [] && g.kids[0] == Leaf([Data(f, n.data)], [])
    ensures Top(r).kids != []
    ensures Valid(LogOfTree(Top(r).kids[0])) && Reqs(LogOfTree(Top(r).kids[0]), 0) == [Data(f, n.data)]
    ensures Valid(ReInit(Top(r).log)) && !Good(ReInit(Top(r).log), Top(r).kids, acts)
  {
    hide Valid, ValidCd, SimLog, SimTree, RecordRun;
    assert SimCd(r[0], g);
    SameCount(r[0].kids, g.kids);
    SimTreeReqs(r[0].kids[0], g.kids[0]);
    HoleIsOpen(r[0].log, f, |n.data|);
    OpenRootFails(root, acts, FirstFlag(r[0].log.table, f));
  }

  lemma {:induction false} HoleIsOpen(l: Log, f: nat, n: nat)
    requires SimLog(l, [Hole(f, n)]) && f != 0
    ensures FirstFlag(l.table, f) < |l.table| && !l.table[FirstFlag(l.table, f)].completed
  {
    hide Tiled;
    FirstReqIs(l, f, 0);
    var i := FirstFlag(l.table, f);
    assert FirstReq([Hole(f, n)], f) == 0;
    ReqOf(l, 0, i);
  }

  lemma SimTreeReqs(t: Tree, leaf: Leaf)
    requires SimTree(t, leaf)
    ensures Valid(LogOfTree(t)) && Reqs(LogOfTree(t), 0) == leaf.reqs
  {
  }

  lemma {:induction false} FirstTwo(p: seq<Cd>, a: CDID, b: CDID, f: nat, m: Mpi, n: Mpi, alloc: Alloc)
    requires f != 0 && |m.junk| == |m.data| == |n.data| == |n.junk|
    requires ValidPath(p) && |p| == 1 && Sim(p, [BLANK])
    ensures
      var acts := Reuse(a, b, f, m, n, alloc);
      var it := Incomplete(f, n.data, true, false, n.task);
      && LegalAct(acts[0]) && LegalAct(acts[1]) && RecordAct(p, acts[0]).Some?
      && var q := RecordAct(RecordAct(p, acts[0]).value, acts[1]);
      && q.Some? && Sim(q.value, [Page([Hole(f, |n.data|)], [Leaf([Data(f, m.data)], [])], [it])])
  {
    hide Valid, ValidCd, Sim, PageAct, RecordRun;
    var acts := Reuse(a, b, f, m, n, alloc);
    ReuseOnPaper(a, b, f, m, n, alloc);
    FreshValid(p, a);
    ReceiveRuns(p + [Fresh(a)], a, f, m);
    var q := RecordAct(p, acts[0]).value;
    ActSim(p, [BLANK], acts[0]);
    ActSim(q, PageAct([BLANK], acts[0]), acts[1]);
  }

  lemma {:induction false} LastRuns(q: seq<Cd>, g: Page, b: CDID, f: nat, m: Mpi, n: Mpi, alloc: Alloc)
    requires f != 0 && |m.data| == |n.data| && ValidPath(q) && Sim(q, [g])
    requires g.kids == [Leaf([Data(f, m.data)], [])] && g.notes == [Incomplete(f, n.data, true, false, n.task)]
    ensures
      var last := Child(b, [Do(Waitall([f]), n)], alloc);
      LegalAct(last) && RecordAct(q, last).Some?
  {
    hide Valid, ValidCd, SimLog, SimTree, Complete;
    var w := [Do(Waitall([f]), n)];
    assert LegalAct(w[0]) && w[1..] == [];
    FreshValid(q, b);
    var start := q + [Fresh(b)];
    assert SimCd(q[0], g);
    FillsFirst(start, g, f, m, n);
    assert [f][1..] == [];
    assert CompleteAll(start, [f]) == CompleteAll(Complete(start, f).value, []);
    assert RecordRun(start, w).Some?;
  }

  lemma {:induction false} FillsFirst(p: seq<Cd>, g: Page, f: nat, m: Mpi, n: Mpi)
    requires f != 0 && |m.data| == |n.data| && ValidPath(p) && |p| == 2 && SimCd(p[0], g) && p[1] == Fresh(p[1].id)
    requires g.kids == [Leaf([Data(f, m.data)], [])] && g.notes == [Incomplete(f, n.data, true, false, n.task)]
    ensures Complete(p, f).Some?
  {
    hide Valid, ValidCd, SimLog, LogTop;
    assert ValidCd(p[0]);
    assert FindFlag(p[0].incomplete, f) == 0 && FindFlag(p[1].incomplete, f) == 0;
    assert p[..1] == [p[0]];
    assert Holder(p, f) == Some(0);
    assert FirstFlag(p[1].log.table, f) == |p[1].log.table|;
    var kids := p[0].kids;
    assert SimTree(kids[0], g.kids[0]);
    FirstLeafIs(kids, g.kids, f);
    assert FirstReq(g.kids[0].reqs, f) == 0 && FirstLeaf(g.kids, f) == 0;
    FitsFirst(LogOfTree(kids[0]), f, m.data);
    ValidKids(p[0]);
    assert Fill(LogOfTree(kids[0]), n.data, f).Some?;
    assert FillKid(kids, n.data, f).Some?;
    assert FillAbove(p, 1, n.data, f).Some?;
    assert FillPath(p, n.data, f).Some?;
  }

  lemma ValidKids(c: Cd)
    requires ValidCd(c)
    ensures forall i :: 0 <= i < |c.kids| ==> Valid(LogOfTree(c.kids[i]))
  {
  }

  lemma {:induction false} FitsFirst(l: Log, f: nat, data: seq<byte>)
    requires SimLog(l, [Data(f, data)]) && f != 0
    ensures LengthAgrees(l.table, f, |data|)
  {
    hide Tiled;
    FirstReqIs(l, f, 0);
    var i := FirstFlag(l.table, f);
    if i < |l.table| {
      ReqOf(l, 0, i);
    }
  }

  lemma {:induction false} ReqOf(l: Log, from: nat, i: nat)
    requires Valid(l) && from <= i < |l.table| && l.table[i].flag != 0
    ensures ItemAt(l, i) in Reqs(l, from)
    decreases i - from
  {
    if from < i {
      ReqOf(l, from + 1, i);
    }
  }

  lemma {:induction false} RunOfThree(p: seq<Cd>, acts: seq<Act>)
    requires ValidPath(p) && |acts| == 3 && LegalAct(acts[0]) && LegalAct(acts[1]) && LegalAct(acts[2])
    requires acts[0].Child? && acts[1].Do? && acts[2].Child?
    requires RecordAct(p, acts[0]).Some? && RecordAct(RecordAct(p, acts[0]).value, acts[1]).Some?
    requires RecordAct(RecordAct(RecordAct(p, acts[0]).value, acts[1]).value, acts[2]).Some?
    ensures LegalActs(acts)
    ensures RecordRun(p, acts) == RecordAct(RecordAct(RecordAct(p, acts[0]).value, acts[1]).value, acts[2])
  {
    hide Valid, ValidCd, RecordAct;
    var x, y := acts[1..], acts[1..][1..];
    assert x == [acts[1], acts[2]] && y == [acts[2]] && y[1..] == [];
    assert LegalActs(acts) && LegalActs(x) && LegalActs(y);
    var q := RecordAct(p, acts[0]).value;
    var r := RecordAct(q, acts[1]).value;
    assert RecordRun(r, y) == RecordAct(r, acts[2]);
    assert RecordRun(q, x) == RecordRun(r, y);
  }
}
