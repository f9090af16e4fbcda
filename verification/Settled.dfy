/** Which runs can be replayed, told by their calls alone. */
module Settled {
  import opened Bytes
  import opened LogModel
  import opened PackFormat
  import opened Replay
  import opened CdLogs
  import opened Wrappers
  import opened WholeRun
  import opened WholeReplay
  import opened LogRollback
  import opened Siblings
  import opened Ledger

  /** What should have been delivered. */
  function WantedOf(ideals: seq<Ideal>): seq<Item>
  {
    if ideals == [] then []
    else (if ideals[0].Slot? then [Data(ideals[0].flag, ideals[0].want)] else []) + WantedOf(ideals[1..])
  }

  /** Every request has its own data, here and in the first child under each ID. */
  ghost predicate LeafSettled(reqs: seq<Item>, kids: seq<Leaf>, acts: seq<Act>)
    decreases acts
  {
    && reqs == WantedOf(OwnTrace(acts))
    && forall i :: 0 <= i < |acts| && acts[i].Child? ==> KidSettled(kids, acts, i)
  }

  ghost predicate KidSettled(kids: seq<Leaf>, acts: seq<Act>, i: nat)
    requires i < |acts| && acts[i].Child?
    decreases acts, 0
  {
    var j := FirstLogged(acts, acts[i].id);
    var k := Records(acts[..j]);
    j < |acts| ==> k < |kids| && LeafSettled(kids[k].reqs, kids[k].kids, acts[j].body)
  }

  /** The condition on a whole run: its requests are settled, and its children recite the first of their name. */
  ghost predicate RunSettled(acts: seq<Act>)
    requires LegalActs(acts)
  {
    var g := PageRun([BLANK], acts)[0];
    LeafSettled(g.reqs, g.kids, acts) && Recites(acts, acts)
  }

  // ---- requests among the items of a log ----

  function ReqItems(items: seq<Item>): seq<Item>
  {
    if items == [] then []
    else (if items[0].flag != 0 then [items[0]] else []) + ReqItems(items[1..])
  }

  lemma {:induction false} ReqItemsAppend(a: seq<Item>, b: seq<Item>)
    ensures ReqItems(a + b) == ReqItems(a) + ReqItems(b)
  {
    if a == [] {
      assert a + b == b;
    } else {
      ReqItemsAppend(a[1..], b);
      assert (a + b)[1..] == a[1..] + b && (a + b)[0] == a[0];
    }
  }

  lemma {:induction false} ReqItemsRepeat(x: Item, n: nat)
    requires x.flag == 0 || n == 1
    ensures ReqItems(Repeat(x, n)) == if x.flag == 0 then [] else [x]
    decreases n
  {
    if n > 0 {
      assert Repeat(x, n)[1..] == Repeat(x, n - 1);
      if x.flag == 0 {
        ReqItemsRepeat(x, n - 1);
      }
    }
  }

  lemma {:induction false} ReqsAhead(l: Log, from: nat)
    requires Valid(l) && Single(l) && from <= |l.table|
    ensures ReqItems(Ahead(l, from)) == Reqs(l, from)
    decreases |l.table| - from
  {
    hide Tiled, LogModel.Payload, ReqItems;
    if from == |l.table| {
      NoReqItems();
    } else {
      ReqsAhead(l, from + 1);
      var x, n := ItemAt(l, from), Copies(l.table[from]);
      ReqItemsRepeat(x, n);
      ReqItemsAppend(Repeat(x, n), Ahead(l, from + 1));
    }
  }

  lemma NoReqItems()
    ensures ReqItems([]) == []
  {
  }

  ghost predicate NonZero(ideals: seq<Ideal>)
  {
    forall i :: 0 <= i < |ideals| && ideals[i].Slot? ==> ideals[i].flag != 0
  }

  lemma {:induction false} OwnTraceNonZero(acts: seq<Act>)
    requires LegalActs(acts)
    ensures NonZero(OwnTrace(acts))
  {
    hide Int, EncInts;
    if acts != [] {
      LegalSplit(acts);
      OwnTraceNonZero(acts[1..]);
      ActTraceNonZero(acts[0]);
    }
  }

  lemma {:induction false} ActTraceNonZero(a: Act)
    requires LegalAct(a)
    ensures NonZero(ActTrace(a))
  {
    hide Int, EncInts;
    if a.Do? && Blocking(a.call) {
      forall i | 0 <= i < |ActTrace(a)|
        ensures ActTrace(a)[i].Fixed?
      {
        BlockingFixed(a.call, a.mpi, i);
      }
    }
  }

  /** Records that agree are the right ones exactly if those of requests are. */
  lemma {:induction false} DeliveredIff(items: seq<Item>, ideals: seq<Ideal>)
    requires AgreesAll(items, ideals) && NonZero(ideals)
    ensures DeliveredAll(items, ideals) <==> ReqItems(items) == WantedOf(ideals)
    decreases |items|
  {
    if items != [] {
      var x, y := items[0], ideals[0];
      var xs, ys := items[1..], ideals[1..];
      assert Agrees(x, y);
      forall i | 0 <= i < |xs|
        ensures Agrees(xs[i], ys[i])
      {
        assert Agrees(items[i + 1], ideals[i + 1]);
      }
      DeliveredIff(xs, ys);
      assert items == [x] + xs && ideals == [y] + ys;
      DeliveredAppend([x], xs, [y], ys);
      assert DeliveredAll([x], [y]) <==> Delivered(x, y);
      HeadIff(x, y, ReqItems(xs), WantedOf(ys));
    }
  }

  lemma {:induction false} HeadIff(x: Item, y: Ideal, xs: seq<Item>, ys: seq<Item>)
    requires Agrees(x, y) && (y.Slot? ==> y.flag != 0)
    ensures
      (if x.flag != 0 then [x] else []) + xs == (if y.Slot? then [Data(y.flag, y.want)] else []) + ys
      <==> Delivered(x, y) && xs == ys
  {
    if y.Slot? {
      var a, b := [x] + xs, [Data(y.flag, y.want)] + ys;
      assert a[0] == x && b[0] == Data(y.flag, y.want) && a[1..] == xs && b[1..] == ys;
      assert a == b <==> x == Data(y.flag, y.want) && xs == ys;
    } else {
      var none: seq<Item> := [];
      assert none + xs == xs && none + ys == ys;
    }
  }

  // ---- logs and pages ----

  lemma {:induction false} OwnIff(l: Log, reqs: seq<Item>, acts: seq<Act>)
    requires SimLog(l, reqs) && AgreesAll(Ahead(l, 0), OwnTrace(acts)) && LegalActs(acts)
    ensures DeliveredAll(Ahead(l, 0), OwnTrace(acts)) <==> reqs == WantedOf(OwnTrace(acts))
  {
    hide LegalActs, Ahead, Tiled, OwnTrace, AgreesAll, DeliveredAll;
    OwnTraceNonZero(acts);
    ReqsAhead(l, 0);
    DeliveredIff(Ahead(l, 0), OwnTrace(acts));
  }

  /** A log and its packed children hold what they should exactly if the page says so. */
  lemma {:induction false} LogIff(l: Log, kids: seq<Tree>, reqs: seq<Item>, leaves: seq<Leaf>, acts: seq<Act>)
    requires SimLog(l, reqs) && l.cursor == 0 && AgreesAll(Ahead(l, 0), OwnTrace(acts)) && LegalActs(acts)
    requires MatchKids(kids, acts) && AllSim(kids, leaves)
    ensures Perfect(l, kids, acts) <==> LeafSettled(reqs, leaves, acts)
    decreases acts, 1
  {
    hide SimLog, MatchKids, AllSim, LegalActs, Ahead, AgreesAll, DeliveredAll, OwnTrace, KidPerfect, KidSettled;
    hide WantedOf;
    SimIsValid(l, reqs);
    OwnIff(l, reqs, acts);
    forall i | 0 <= i < |acts| && acts[i].Child?
      ensures KidPerfect(kids, acts, i) <==> KidSettled(leaves, acts, i)
    {
      KidIff(kids, leaves, acts, i);
    }
  }

  lemma SimIsValid(l: Log, reqs: seq<Item>)
    requires SimLog(l, reqs)
    ensures Valid(l)
  {
  }

  lemma {:induction false} KidIff(kids: seq<Tree>, leaves: seq<Leaf>, acts: seq<Act>, i: nat)
    requires LegalActs(acts) && MatchKids(kids, acts) && AllSim(kids, leaves) && i < |acts| && acts[i].Child?
    ensures KidPerfect(kids, acts, i) <==> KidSettled(leaves, acts, i)
    decreases acts, 0
  {
    hide MatchKids, FirstTree, FirstLogged, Perfect, LeafSettled, LegalAct, Logs, Ahead, Tiled, OwnTrace, Records;
    var j := FirstLogged(acts, acts[i].id);
    FoundKid(kids, acts, acts[i].id);
    if j < |acts| {
      var k := FirstTree(kids, acts[i].id);
      var t, leaf, body := kids[k], leaves[k], acts[j].body;
      assert LegalAct(acts[j]) && SimTree(t, leaf);
      LegalBody(acts[j]);
      TreeShape(t, body);
      LogIff(LogOfTree(t), t.kids, leaf.reqs, leaf.kids, body);
    }
  }

  lemma {:induction false} PerfectIff(c: Cd, g: Page, acts: seq<Act>)
    requires Shows(c, OwnTrace(acts), acts) && SimCd(c, g) && LegalActs(acts)
    ensures Valid(ReInit(c.log)) && (Perfect(ReInit(c.log), c.kids, acts) <==> LeafSettled(g.reqs, g.kids, acts))
  {
    hide LeafSettled, Perfect, MatchKids, LegalActs, Ahead, Tiled, OwnTrace, Logs, Reqs;
    var start := ReInit(c.log);
    SameBooks(c.log, start, OwnTrace(acts));
    SameReqs(c.log, start);
    LogIff(start, c.kids, g.reqs, g.kids, acts);
  }

  // ---- the exact condition ----

  /**
    The exact condition, on the calls alone, for every program. Interrupted anywhere and rolled back to the
    root, it is re-run with the same answers and no call of MPI, up to the interruption, if and only if on
    paper every request whose record can be found ends with its own data, and every child would have logged
    what the first child under its ID logged, as far as it got.
   */
  lemma {:induction false} ReplaysExactly(frames: seq<Frame>, allocs: seq<Alloc>)
    requires frames != [] && LegalActs(Whole(frames)) && OpenRun([], frames).Some? && AllocsFit(frames, allocs, 0)
    ensures
      var c := Top(RollBack(OpenRun([], frames).value, 0, allocs));
      Valid(c.log) && (Resumes(c.log, c.kids, frames) <==> RunSettled(Whole(frames)))
  {
    hide OpenRun, RollBack, RecordRun, LegalActs, Perfect, Recites, Whole, LeafSettled, PageRun, SimCd, Shows;
    hide Remaining, Valid, Rerun;
    var acts, root := Whole(frames), [Fresh(frames[0].id)];
    RootShows(frames, allocs);
    var c := Top(RollBack(OpenRun([], frames).value, 0, allocs));
    ShownShape(c, acts);
    ResumeIsReplay(c.log, c.kids, frames);
    FreshSim(frames[0].id);
    assert Sim(root, [BLANK]);
    RunSim(root, [BLANK], acts);
    var r := Top(RecordRun(root, acts).value);
    RecordedShows(root, acts);
    PerfectIff(r, PageRun([BLANK], acts)[0], acts);
    PerfectReplays(c.log, c.kids, acts);
  }

  /** The same for a CD that has run to its end, told without the rollback. */
  lemma {:induction false} RunReplays(id: CDID, acts: seq<Act>)
    requires LegalActs(acts) && ValidPath([Fresh(id)]) && RecordRun([Fresh(id)], acts).Some?
    ensures
      var c := Top(RecordRun([Fresh(id)], acts).value);
      && Valid(ReInit(c.log)) && Represents(c.log, OwnTrace(acts)) && MatchKids(c.kids, acts)
      && (Good(ReInit(c.log), c.kids, acts) <==> RunSettled(acts))
  {
    hide RecordRun, LegalActs, Perfect, Recites, LeafSettled, PageRun, SimCd, Remaining, Rerun;
    hide MatchKids, Ahead, Tiled, OwnTrace, Logs;
    var root := [Fresh(id)];
    FreshSim(id);
    assert Sim(root, [BLANK]);
    RunSim(root, [BLANK], acts);
    var r := Top(RecordRun(root, acts).value);
    RecordedShows(root, acts);
    PerfectIff(r, PageRun([BLANK], acts)[0], acts);
    var c := r.(log := ReInit(r.log));
    SameBooks(r.log, c.log, OwnTrace(acts));
    assert Shows(c, OwnTrace(acts), acts);
    ShownShape(c, acts);
    PerfectReplays(c.log, c.kids, acts);
  }
}
