/**
  A run on paper: of every CD only its requests, in the order they were started, and what has been delivered
  to each. It needs the calls and nothing else, and it tells exactly which runs can be replayed.
 */
module Ledger {
  import opened Bytes
  import opened LogModel
  import opened PackFormat
  import opened Replay
  import opened CdLogs
  import opened Wrappers
  import opened WholeRun
  import opened WholeReplay
  import opened Requests

  /** A finished CD, and an open one with its notes. */
  datatype Leaf = Leaf(reqs: seq<Item>, kids: seq<Leaf>)
  datatype Page = Page(reqs: seq<Item>, kids: seq<Leaf>, notes: seq<Incomplete>)

  const BLANK := Page([], [], [])

  function FirstReq(reqs: seq<Item>, flag: nat): (i: nat)
    ensures i <= |reqs|
    ensures i < |reqs| ==> reqs[i].flag == flag
    ensures forall j :: 0 <= j < i ==> reqs[j].flag != flag
  {
    if reqs == [] then 0 else if reqs[0].flag == flag then 0 else 1 + FirstReq(reqs[1..], flag)
  }

  /** The first request at that address gets the data, whoever it was meant for. */
  function Deliver(reqs: seq<Item>, data: seq<byte>, flag: nat): (r: seq<Item>)
    ensures |r| == |reqs|
  {
    var i := FirstReq(reqs, flag);
    if i == |reqs| then reqs else reqs[i := Data(flag, data)]
  }

  function FirstLeaf(kids: seq<Leaf>, flag: nat): (k: nat)
    ensures k <= |kids|
    ensures k < |kids| ==> FirstReq(kids[k].reqs, flag) < |kids[k].reqs|
    ensures forall i :: 0 <= i < k ==> FirstReq(kids[i].reqs, flag) == |kids[i].reqs|
  {
    if kids == [] then 0
    else if FirstReq(kids[0].reqs, flag) < |kids[0].reqs| then 0
    else 1 + FirstLeaf(kids[1..], flag)
  }

  /** Among the finished children of the CDs above level `n`. */
  function DeliverAbove(g: seq<Page>, n: nat, data: seq<byte>, flag: nat): (h: seq<Page>)
    requires n < |g|
    ensures |h| == |g|
    decreases n
  {
    if n == 0 then g
    else
      var kids := g[n - 1].kids;
      var k := FirstLeaf(kids, flag);
      if k == |kids| then DeliverAbove(g, n - 1, data, flag)
      else g[n - 1 := g[n - 1].(kids := kids[k := kids[k].(reqs := Deliver(kids[k].reqs, data, flag))])]
  }

  function DeliverPage(g: seq<Page>, data: seq<byte>, flag: nat): (h: seq<Page>)
    requires g != []
    ensures |h| == |g|
  {
    var t := |g| - 1;
    if FirstReq(g[t].reqs, flag) < |g[t].reqs| then g[t := g[t].(reqs := Deliver(g[t].reqs, data, flag))]
    else DeliverAbove(g, t, data, flag)
  }

  /** The nearest CD that has noted the request. */
  function Keeper(g: seq<Page>, flag: nat): (k: Option<nat>)
    ensures k.Some? ==> k.value < |g| && FindFlag(g[k.value].notes, flag) < |g[k.value].notes|
    ensures k.Some? ==> forall i :: k.value < i < |g| ==> FindFlag(g[i].notes, flag) == |g[i].notes|
    ensures k.None? ==> forall i :: 0 <= i < |g| ==> FindFlag(g[i].notes, flag) == |g[i].notes|
  {
    if g == [] then None
    else
      var t := |g| - 1;
      if FindFlag(g[t].notes, flag) < |g[t].notes| then Some(t) else Keeper(g[..t], flag)
  }

  function Close(g: seq<Page>, flag: nat): (h: seq<Page>)
    requires g != []
    ensures |h| == |g|
  {
    match Keeper(g, flag)
    case None => g
    case Some(k) =>
      var j := FindFlag(g[k].notes, flag);
      var it := g[k].notes[j];
      var h := if it.intra then g else DeliverPage(g, it.arrives, flag);
      h[k := h[k].(notes := Remove(g[k].notes, j))]
  }

  function CloseAll(g: seq<Page>, flags: seq<nat>): (h: seq<Page>)
    requires g != []
    ensures |h| == |g|
    decreases |flags|
  {
    if flags == [] then g else CloseAll(Close(g, flags[0]), flags[1..])
  }

  function Open(g: seq<Page>, it: Incomplete): (h: seq<Page>)
    requires g != []
    ensures |h| == |g|
  {
    var t := |g| - 1;
    g[t := g[t].(reqs := g[t].reqs + [Hole(it.flag, |it.arrives|)], notes := g[t].notes + [it])]
  }

  ghost function PageCall(g: seq<Page>, c: Call, m: Mpi): (h: seq<Page>)
    requires g != [] && Legal(c, m)
    ensures |h| == |g|
  {
    if Blocking(c) then CloseAll(g, Completes(c, m)) else Open(g, Posts(c, m)[0])
  }

  /** A CD that ends becomes a leaf of its parent's, if it logged anything, and hands over its notes. */
  function Fold(g: seq<Page>, logged: bool): (h: seq<Page>)
    requires |g| >= 2
    ensures |h| == |g| - 1
  {
    var t := |g| - 1;
    var c, parent := g[t], g[t - 1];
    g[..t - 1] + [parent.(kids := if logged then parent.kids + [Leaf(c.reqs, c.kids)] else parent.kids,
                          notes := parent.notes + c.notes)]
  }

  ghost function PageRun(g: seq<Page>, acts: seq<Act>): (h: seq<Page>)
    requires g != [] && LegalActs(acts)
    ensures |h| == |g|
    decreases acts, 0
  {
    if acts == [] then g
    else
      assert LegalAct(acts[0]);
      PageRun(PageAct(g, acts[0]), acts[1..])
  }

  ghost function PageAct(g: seq<Page>, a: Act): (h: seq<Page>)
    requires g != [] && LegalAct(a)
    ensures |h| == |g|
    decreases a, 1
  {
    match a
    case Do(c, m) => PageCall(g, c, m)
    case Child(_, body, _) => Fold(PageRun(g + [BLANK], body), Logs(body))
  }

  // ---- the paper run and the logs ----

  /** The entries that belong to requests, in order. */
  function Reqs(l: Log, from: nat): seq<Item>
    requires Valid(l) && from <= |l.table|
    decreases |l.table| - from
  {
    if from == |l.table| then []
    else (if l.table[from].flag != 0 then [ItemAt(l, from)] else []) + Reqs(l, from + 1)
  }

  /** A request's entry is never merged. */
  ghost predicate Single(l: Log)
  {
    forall i :: 0 <= i < |l.table| && l.table[i].flag != 0 ==> !l.table[i].isrepeated
  }

  ghost predicate SimLog(l: Log, reqs: seq<Item>)
  {
    Valid(l) && Single(l) && Reqs(l, 0) == reqs
  }

  ghost predicate SimTree(t: Tree, leaf: Leaf)
  {
    && SimLog(LogOfTree(t), leaf.reqs) && |t.kids| == |leaf.kids|
    && forall k :: 0 <= k < |t.kids| ==> SimTree(t.kids[k], leaf.kids[k])
  }

  ghost predicate AllSim(kids: seq<Tree>, leaves: seq<Leaf>)
  {
    |kids| == |leaves| && forall k :: 0 <= k < |kids| ==> SimTree(kids[k], leaves[k])
  }

  ghost predicate SimCd(c: Cd, g: Page)
  {
    ValidCd(c) && c.relaxed && SimLog(c.log, g.reqs) && AllSim(c.kids, g.kids) && c.incomplete == g.notes
  }

  ghost predicate Sim(p: seq<Cd>, g: seq<Page>)
  {
    p != [] && |p| == |g| && forall i :: 0 <= i < |p| ==> SimCd(p[i], g[i])
  }

  lemma {:induction false} ReqsGrow(l: Log, r: Log, from: nat)
    requires Valid(l) && Valid(r) && from <= |l.table| <= |r.table|
    requires forall i :: from <= i < |l.table| ==> ItemAt(r, i) == ItemAt(l, i) && r.table[i].flag == l.table[i].flag
    ensures Reqs(r, from) == Reqs(l, from) + Reqs(r, |l.table|)
    decreases |l.table| - from
  {
    hide Tiled, LogModel.Payload;
    if from < |l.table| {
      ReqsGrow(l, r, from + 1);
    }
  }

  lemma {:induction false} SameItems(l: Log, r: Log)
    requires Valid(l) && Valid(r) && |l.table| <= |r.table|
    requires forall i :: 0 <= i < |l.table| ==>
               RecordAt(r, i) == RecordAt(l, i).(counter := RecordAt(r, i).counter)
               && r.table[i].length == l.table[i].length
    ensures Reqs(r, 0) == Reqs(l, 0) + Reqs(r, |l.table|)
  {
    hide Tiled, LogModel.Payload, Reqs;
    forall i | 0 <= i < |l.table|
      ensures ItemAt(r, i) == ItemAt(l, i) && r.table[i].flag == l.table[i].flag
    {
      assert RecordAt(r, i) == RecordAt(l, i).(counter := RecordAt(r, i).counter);
    }
    ReqsGrow(l, r, 0);
  }

  lemma {:induction false} LogDataSim(l: Log, data: seq<byte>, task: nat, isrepeated: bool, reqs: seq<Item>)
    requires SimLog(l, reqs) && (isrepeated ==> l.table != [])
    ensures SimLog(LogData(l, data, task, true, 0, isrepeated, data), reqs)
  {
    hide Tiled, LogModel.Payload;
    var r := LogData(l, data, task, true, 0, isrepeated, data);
    LogDataAppends(l, data, task, true, 0, isrepeated, data);
    forall i | 0 <= i < |l.table|
      ensures RecordAt(r, i) == RecordAt(l, i).(counter := RecordAt(r, i).counter)
      ensures r.table[i].length == l.table[i].length
    {
      assert RecordAt(r, i) == View(r)[i] && RecordAt(l, i) == View(l)[i];
    }
    SameItems(l, r);
    LastReqs(r);
  }

  lemma {:induction false} LastReqs(r: Log)
    requires Valid(r)
    ensures Reqs(r, |r.table|) == []
    ensures r.table != [] ==>
              var n := |r.table| - 1;
              Reqs(r, n) == if r.table[n].flag != 0 then [ItemAt(r, n)] else []
  {
    hide Tiled, LogModel.Payload;
  }

  lemma {:induction false} PostSim(l: Log, junk: seq<byte>, task: nat, flag: nat, reqs: seq<Item>)
    requires SimLog(l, reqs) && flag != 0
    ensures SimLog(LogData(l, junk, task, false, flag, false, junk), reqs + [Hole(flag, |junk|)])
  {
    hide Tiled, LogModel.Payload;
    var r := LogData(l, junk, task, false, flag, false, junk);
    LogDataAppends(l, junk, task, false, flag, false, junk);
    forall i | 0 <= i < |l.table|
      ensures RecordAt(r, i) == RecordAt(l, i).(counter := RecordAt(r, i).counter)
      ensures r.table[i].length == l.table[i].length
    {
      assert RecordAt(r, i) == View(r)[i] && RecordAt(l, i) == View(l)[i];
    }
    SameItems(l, r);
    LastReqs(r);
  }

  /** The first entry with the flag is the first request with it. */
  lemma {:induction false} FirstReqIs(l: Log, flag: nat, from: nat)
    requires Valid(l) && flag != 0 && from <= FirstFlag(l.table, flag)
    ensures FirstFlag(l.table, flag) < |l.table| <==> FirstReq(Reqs(l, from), flag) < |Reqs(l, from)|
    decreases |l.table| - from
  {
    hide Tiled, LogModel.Payload, FirstFlag;
    if from < |l.table| {
      var rest := Reqs(l, from + 1);
      if l.table[from].flag != 0 {
        assert ([ItemAt(l, from)] + rest)[1..] == rest;
      } else {
        assert [] + rest == rest;
      }
      if from < FirstFlag(l.table, flag) {
        FirstReqIs(l, flag, from + 1);
      }
    }
  }

  lemma {:induction false} FillReqs(l: Log, r: Log, flag: nat, data: seq<byte>, from: nat)
    requires Valid(l) && Valid(r) && flag != 0 && |l.table| == |r.table| && from <= FirstFlag(l.table, flag) < |l.table|
    requires forall i :: 0 <= i < |l.table| ==> r.table[i].flag == l.table[i].flag
    requires forall i :: 0 <= i < |l.table| ==>
               ItemAt(r, i) == if i == FirstFlag(l.table, flag) then Data(flag, data) else ItemAt(l, i)
    ensures Reqs(r, from) == Deliver(Reqs(l, from), data, flag)
    decreases |l.table| - from
  {
    hide Valid, FirstFlag, ItemAt, Deliver;
    var i := FirstFlag(l.table, flag);
    var x, rest := ItemAt(l, from), Reqs(l, from + 1);
    ItemFlag(l, from);
    if from == i {
      ReqsGrow(l, r, from + 1);
      LastReqs(r);
      DeliverFirst(x, rest, data, flag);
    } else {
      FillReqs(l, r, flag, data, from + 1);
      if l.table[from].flag == 0 {
        assert [] + rest == rest && [] + Reqs(r, from + 1) == Reqs(r, from + 1);
      } else {
        DeliverLater(x, rest, data, flag);
      }
    }
  }

  lemma ItemFlag(l: Log, i: nat)
    requires Valid(l) && i < |l.table|
    ensures ItemAt(l, i).flag == l.table[i].flag
  {
  }

  lemma {:induction false} DeliverLater(x: Item, rest: seq<Item>, data: seq<byte>, flag: nat)
    requires x.flag != flag
    ensures Deliver([x] + rest, data, flag) == [x] + Deliver(rest, data, flag)
  {
    assert ([x] + rest)[1..] == rest;
  }

  lemma {:induction false} DeliverFirst(x: Item, rest: seq<Item>, data: seq<byte>, flag: nat)
    requires x.flag == flag
    ensures Deliver([x] + rest, data, flag) == [Data(flag, data)] + rest
  {
  }

  lemma {:induction false} FillSim(l: Log, data: seq<byte>, flag: nat, reqs: seq<Item>)
    requires SimLog(l, reqs) && flag != 0 && Fill(l, data, flag).Some? && FirstFlag(l.table, flag) < |l.table|
    ensures SimLog(Fill(l, data, flag).value, Deliver(reqs, data, flag))
  {
    hide Tiled, LogModel.Payload, FirstFlag, Reqs;
    var r := ProbeAndLog(l, data, flag);
    forall i | 0 <= i < |l.table|
      ensures Valid(r) && ItemAt(r, i) == if i == FirstFlag(l.table, flag) then Data(flag, data) else ItemAt(l, i)
    {
      ProbeAndLogPayload(l, data, flag, i);
    }
    FillReqs(l, r, flag, data, 0);
  }

  // ---- every operation, on both sides ----

  lemma {:induction false} TopSim(p: seq<Cd>, g: seq<Page>, c: Cd, h: Page)
    requires Sim(p, g) && SimCd(c, h)
    ensures Sim(WithTop(p, c), g[|g| - 1 := h])
  {
  }

  lemma {:induction false} LogTopSim(p: seq<Cd>, g: seq<Page>, data: seq<byte>, task: nat)
    requires ValidPath(p) && Sim(p, g)
    ensures Sim(LogTop(p, data, task), g)
  {
    hide Valid, SimLog, AllSim;
    var t := |p| - 1;
    LogDataSim(p[t].log, data, task, false, g[t].reqs);
    TopSim(p, g, Top(LogTop(p, data, task)), g[t]);
  }

  lemma {:induction false} LogAgainSim(p: seq<Cd>, g: seq<Page>, data: seq<byte>, task: nat)
    requires ValidPath(p) && Sim(p, g) && LogAgain(p, data, task).Some?
    ensures Sim(LogAgain(p, data, task).value, g)
  {
    hide Valid, SimLog, AllSim;
    var t := |p| - 1;
    LogDataSim(p[t].log, data, task, true, g[t].reqs);
    TopSim(p, g, Top(LogAgain(p, data, task).value), g[t]);
  }

  lemma {:induction false} OpenSim(p: seq<Cd>, g: seq<Page>, it: Incomplete, junk: seq<byte>)
    requires ValidPath(p) && Sim(p, g) && it.flag != 0 && |junk| == |it.arrives|
    ensures Sim(Post(p, it, junk), Open(g, it))
  {
    hide Valid, SimLog, AllSim;
    var t := |p| - 1;
    PostSim(p[t].log, junk, it.task, it.flag, g[t].reqs);
    TopSim(p, g, Top(Post(p, it, junk)), Open(g, it)[t]);
  }

  lemma {:induction false} LogReqs(l: Log, reqs: seq<Item>, flag: nat)
    requires SimLog(l, reqs) && flag != 0
    ensures FirstFlag(l.table, flag) < |l.table| <==> FirstReq(reqs, flag) < |reqs|
  {
    FirstReqIs(l, flag, 0);
  }

  lemma {:induction false} FirstLeafIs(kids: seq<Tree>, leaves: seq<Leaf>, flag: nat)
    requires AllSim(kids, leaves) && flag != 0
    ensures FirstKid(kids, flag) == FirstLeaf(leaves, flag)
  {
    hide SimLog, FirstFlag, FirstReq;
    forall k | 0 <= k < |kids|
      ensures FirstFlag(kids[k].table, flag) < |kids[k].table| <==> FirstReq(leaves[k].reqs, flag) < |leaves[k].reqs|
    {
      LogReqs(LogOfTree(kids[k]), leaves[k].reqs, flag);
    }
  }

  lemma {:induction false} FillKidSim(kids: seq<Tree>, leaves: seq<Leaf>, data: seq<byte>, flag: nat)
    requires AllSim(kids, leaves) && flag != 0 && FirstKid(kids, flag) < |kids|
    requires (forall i :: 0 <= i < |kids| ==> Valid(LogOfTree(kids[i]))) && FillKid(kids, data, flag).Some?
    ensures
      var k := FirstLeaf(leaves, flag);
      k < |leaves| && AllSim(FillKid(kids, data, flag).value,
                             leaves[k := leaves[k].(reqs := Deliver(leaves[k].reqs, data, flag))])
  {
    hide Valid, SimLog, FirstFlag, FirstReq, FirstKid, Fill, Deliver;
    FirstLeafIs(kids, leaves, flag);
    var k := FirstKid(kids, flag);
    FillSim(LogOfTree(kids[k]), data, flag, leaves[k].reqs);
    var l := Fill(LogOfTree(kids[k]), data, flag).value;
    LogOfFilled(kids[k], flag, data);
    assert SimTree(WithLog(kids[k], l), leaves[k].(reqs := Deliver(leaves[k].reqs, data, flag)));
  }

  lemma {:induction false} FillAboveSim(p: seq<Cd>, g: seq<Page>, n: nat, data: seq<byte>, flag: nat)
    requires ValidPath(p) && Sim(p, g) && n < |p| && flag != 0 && FillAbove(p, n, data, flag).Some?
    ensures Sim(FillAbove(p, n, data, flag).value, DeliverAbove(g, n, data, flag))
    decreases n
  {
    hide Valid, SimLog, AllSim, FillKid, FirstKid, FirstLeaf, Deliver;
    if n > 0 {
      assert SimCd(p[n - 1], g[n - 1]);
      FirstLeafIs(p[n - 1].kids, g[n - 1].kids, flag);
      if FirstKid(p[n - 1].kids, flag) < |p[n - 1].kids| {
        FillKidSim(p[n - 1].kids, g[n - 1].kids, data, flag);
      } else {
        SameCount(p[n - 1].kids, g[n - 1].kids);
        FillAboveSim(p, g, n - 1, data, flag);
      }
    }
  }

  lemma SameCount(kids: seq<Tree>, leaves: seq<Leaf>)
    requires AllSim(kids, leaves)
    ensures |kids| == |leaves|
  {
  }

  lemma {:induction false} FillPathSim(p: seq<Cd>, g: seq<Page>, data: seq<byte>, flag: nat)
    requires ValidPath(p) && Sim(p, g) && flag != 0 && FillPath(p, data, flag).Some?
    ensures Sim(FillPath(p, data, flag).value, DeliverPage(g, data, flag))
  {
    hide Valid, SimLog, AllSim, FirstFlag, FirstReq, Fill, FillAbove, DeliverAbove, Deliver;
    var t := |p| - 1;
    LogReqs(p[t].log, g[t].reqs, flag);
    if FirstFlag(p[t].log.table, flag) < |p[t].log.table| {
      FillSim(p[t].log, data, flag, g[t].reqs);
      TopSim(p, g, Top(FillPath(p, data, flag).value), g[t].(reqs := Deliver(g[t].reqs, data, flag)));
    } else {
      FillAboveSim(p, g, t, data, flag);
    }
  }

  lemma {:induction false} KeeperIs(p: seq<Cd>, g: seq<Page>, flag: nat)
    requires |p| == |g| && forall i :: 0 <= i < |p| ==> p[i].incomplete == g[i].notes
    ensures Keeper(g, flag) == Holder(p, flag)
    decreases |p|
  {
    hide FindFlag;
    if p != [] {
      KeeperIs(p[..|p| - 1], g[..|g| - 1], flag);
    }
  }

  lemma {:induction false} CloseSim(p: seq<Cd>, g: seq<Page>, flag: nat)
    requires ValidPath(p) && Sim(p, g) && Complete(p, flag).Some?
    ensures Sim(Complete(p, flag).value, Close(g, flag))
  {
    hide Valid, SimLog, AllSim, FindFlag, Holder, Keeper, FillPath, DeliverPage, LogTop;
    assert forall i :: 0 <= i < |p| ==> SimCd(p[i], g[i]);
    KeeperIs(p, g, flag);
    var k := Holder(p, flag).value;
    assert ValidCd(p[k]);
    var j := FindFlag(p[k].incomplete, flag);
    var it := p[k].incomplete[j];
    var q, h := p, g;
    if !it.intra {
      FillPathSim(p, g, it.arrives, flag);
      q, h := FillPath(p, it.arrives, flag).value, DeliverPage(g, it.arrives, flag);
    }
    LogTopSim(q, h, [], it.task);
    assert SimCd(LogTop(q, [], it.task)[k], h[k]);
  }

  lemma {:induction false} CloseAllSim(p: seq<Cd>, g: seq<Page>, flags: seq<nat>)
    requires ValidPath(p) && Sim(p, g) && CompleteAll(p, flags).Some?
    ensures Sim(CompleteAll(p, flags).value, CloseAll(g, flags))
    decreases |flags|
  {
    hide ValidPath, Sim, Complete, Close;
    if flags != [] {
      SimLength(p, g);
      CloseSim(p, g, flags[0]);
      CloseAllSim(Complete(p, flags[0]).value, Close(g, flags[0]), flags[1..]);
    }
  }

  lemma SimLength(p: seq<Cd>, g: seq<Page>)
    requires Sim(p, g)
    ensures p != [] && |p| == |g|
  {
  }

  lemma {:induction false} CloseOneSim(p: seq<Cd>, g: seq<Page>, flag: nat)
    requires ValidPath(p) && Sim(p, g) && Complete(p, flag).Some?
    ensures Sim(Complete(p, flag).value, CloseAll(g, [flag]))
  {
    hide Sim, Complete, Close, ValidPath;
    SimLength(p, g);
    CloseSim(p, g, flag);
    assert [flag][1..] == [];
    assert CloseAll(g, [flag]) == CloseAll(Close(g, flag), [flag][1..]);
  }

  lemma {:induction false} TestSim(p: seq<Cd>, g: seq<Page>, fs: seq<nat>, m: Mpi)
    requires ValidPath(p) && Sim(p, g) && GenTest(p, fs, m).Some?
    ensures Sim(GenTest(p, fs, m).value, CloseAll(g, if m.flag then fs else []))
  {
    hide ValidPath, Sim, CompleteAll, LogTop, LogAgain, Int;
    SimLength(p, g);
    if m.flag {
      LogTopSim(p, g, Int(1), 0);
      CloseAllSim(LogTop(p, Int(1), 0), g, fs);
    } else {
      LogAgainSim(p, g, Int(0), 0);
    }
  }

  lemma {:induction false} LogTwoSim(p: seq<Cd>, g: seq<Page>, d: seq<byte>, e: seq<byte>, task: nat)
    requires ValidPath(p) && Sim(p, g)
    ensures Sim(LogTop(LogTop(p, d, task), e, task), g)
  {
    hide ValidPath, Sim, LogTop;
    LogTopSim(p, g, d, task);
    LogTopSim(LogTop(p, d, task), g, e, task);
  }

  lemma {:induction false} CallSim(p: seq<Cd>, g: seq<Page>, c: Call, m: Mpi)
    requires ValidPath(p) && Sim(p, g) && Legal(c, m) && Gen(p, c, m).Some?
    ensures g != [] && Sim(Gen(p, c, m).value, PageCall(g, c, m))
  {
    hide ValidPath, Sim, CompleteAll, Complete, LogTop, LogAgain, Post, Int, EncInts, Pick, GenTest, Close, Open;
    SimLength(p, g);
    match c
    case Send => LogTopSim(p, g, [], m.task);
    case Recv(_) => LogTopSim(p, g, m.data, m.task);
    case Sendrecv(_) => LogTwoSim(p, g, [], m.data, m.task);
    case Isend(f, intra) => OpenSim(p, g, Incomplete(f, [], false, intra, m.task), m.junk);
    case Irecv(f, _, intra) => OpenSim(p, g, Incomplete(f, m.data, true, intra, m.task), m.junk);
    case Test(f) => TestSim(p, g, [f], m);
    case Testall(fs) => TestSim(p, g, fs, m);
    case Testany(fs) =>
      if m.flag {
        LogTwoSim(p, g, Int(1), Int(m.index), 0);
        CloseOneSim(LogTop(LogTop(p, Int(1), 0), Int(m.index), 0), g, fs[m.index]);
      } else {
        LogAgainSim(p, g, Int(0), 0);
      }
    case Waitall(fs) => CloseAllSim(p, g, fs);
    case Waitany(fs) =>
      LogTopSim(p, g, Int(m.index), 0);
      CloseOneSim(LogTop(p, Int(m.index), 0), g, fs[m.index]);
    case Waitsome(fs) =>
      LogTwoSim(p, g, Int(|m.indices|), EncInts(m.indices), 0);
      CloseAllSim(LogTop(LogTop(p, Int(|m.indices|), 0), EncInts(m.indices), 0), g, Pick(fs, m.indices));
  }

  lemma {:induction false} FoldSim(p: seq<Cd>, g: seq<Page>, a: Alloc)
    requires Sim(p, g) && |p| >= 2
    ensures Sim(Handover(p, a), Fold(g, Top(p).log.generated))
  {
    hide Valid, Reqs;
    var t := |p| - 1;
    var c, parent := p[t], p[t - 1];
    assert SimCd(c, g[t]) && SimCd(parent, g[t - 1]);
    var q := Handover(p, a);
    assert ValidPath(p);
    HandoverValid(p, a);
    SameReqs(c.log, LogOfTree(TreeOf(c, a)));
    SameReqs(parent.log, q[t - 1].log);
    assert ValidCd(q[t - 1]);
    assert SimTree(TreeOf(c, a), Leaf(g[t].reqs, g[t].kids));
  }

  lemma {:induction false} SameReqs(l: Log, r: Log)
    requires Valid(l) && r.table == l.table && r.queue == l.queue && (r.cursor == l.cursor || r.cursor == 0)
    ensures Valid(r) && Reqs(r, 0) == Reqs(l, 0)
  {
    hide Reqs;
    assert forall i :: 0 <= i < |l.table| ==> ItemAt(r, i) == ItemAt(l, i);
    ReqsGrow(l, r, 0);
    LastReqs(r);
  }

  /** The paper run follows the recording, step by step. */
  lemma {:induction false} RunSim(p: seq<Cd>, g: seq<Page>, acts: seq<Act>)
    requires ValidPath(p) && Sim(p, g) && LegalActs(acts) && RecordRun(p, acts).Some?
    ensures g != [] && Sim(RecordRun(p, acts).value, PageRun(g, acts))
    decreases acts, 0
  {
    hide ValidPath, Sim, RecordAct, PageAct;
    SimLength(p, g);
    if acts != [] {
      assert LegalAct(acts[0]);
      ActSim(p, g, acts[0]);
      RunSim(RecordAct(p, acts[0]).value, PageAct(g, acts[0]), acts[1..]);
    }
  }

  lemma {:induction false} ActSim(p: seq<Cd>, g: seq<Page>, a: Act)
    requires ValidPath(p) && Sim(p, g) && LegalAct(a) && RecordAct(p, a).Some?
    ensures g != [] && Sim(RecordAct(p, a).value, PageAct(g, a))
    decreases a, 1
  {
    hide ValidPath, Sim, Gen, PageCall, Handover, Fold, RecordRun, PageRun, Logs, Shows;
    SimLength(p, g);
    match a
    case Do(c, m) => CallSim(p, g, c, m);
    case Child(id, body, alloc) =>
      FreshValid(p, id);
      var start := p + [Fresh(id)];
      BeginSim(p, g, id);
      RunSim(start, g + [BLANK], body);
      var q := RecordRun(start, body).value;
      FoldSim(q, PageRun(g + [BLANK], body), alloc);
      RecordedShows(start, body);
      GeneratedIsLogs(Top(q), body);
  }

  lemma {:induction false} GeneratedIsLogs(c: Cd, acts: seq<Act>)
    requires Shows(c, OwnTrace(acts), acts) && Alert(c, OwnTrace(acts), acts)
    ensures c.log.generated == Logs(acts)
  {
    hide Logs, OwnTrace, Represents, MatchKids, ValidCd;
    OwnTraceLogs(acts);
  }

  lemma {:induction false} BeginSim(p: seq<Cd>, g: seq<Page>, id: CDID)
    requires Sim(p, g)
    ensures Sim(p + [Fresh(id)], g + [BLANK])
  {
    hide SimLog, AllSim;
    FreshSim(id);
  }

  lemma FreshSim(id: CDID)
    ensures SimCd(Fresh(id), BLANK)
  {
    assert Valid(EMPTY);
  }
}
