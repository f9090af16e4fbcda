/** The usual loop, interrupted inside an iteration. */
module OpenLoop {
  import opened Bytes
  import opened LogModel
  import opened PackFormat
  import opened Replay
  import opened CdLogs
  import opened Wrappers
  import opened WholeRun
  import opened WholeReplay
  import opened Recital
  import opened Siblings
  import opened LogRollback
  import opened Requests
  import opened Ledger
  import opened Settled
  import opened OwnRequests
  import opened Patterns

  /** The finished iterations, and one more that got as far as `k` of its calls. */
  function OpenFrames(root: CDID, ids: seq<CDID>, f: nat, ms: seq<Mpi>, id: CDID, m: Mpi, k: nat, a: Alloc): seq<Frame>
    requires |ids| == |ms| && k <= 2
  {
    [Frame(root, Loop(ids, f, ms, a), a), Frame(id, Part(f, m, k), a)]
  }

  function Unfinished(ids: seq<CDID>, f: nat, ms: seq<Mpi>, id: CDID, m: Mpi, k: nat, a: Alloc): seq<Act>
    requires |ids| == |ms| && k <= 2
  {
    Loop(ids, f, ms, a) + [Child(id, Part(f, m, k), a)]
  }

  /** An earlier iteration had the same ID. */
  ghost predicate Seen(ids: seq<CDID>, id: CDID)
  {
    exists i :: 0 <= i < |ids| && SameCD(ids[i], id)
  }

  /** Those that had it received the same. */
  ghost predicate SameAsBefore(ids: seq<CDID>, ms: seq<Mpi>, id: CDID, m: Mpi)
    requires |ids| == |ms|
  {
    forall i :: 0 <= i < |ids| && SameCD(ids[i], id) ==> ms[i].data == m.data
  }

  lemma {:induction false} FirstOfUnfinished(ids: seq<CDID>, f: nat, ms: seq<Mpi>, id: CDID, m: Mpi, k: nat, a: Alloc,
                                             x: CDID)
    requires |ids| == |ms| && k <= 2
    ensures
      var j := FirstLogged(Unfinished(ids, f, ms, id, m, k, a), x);
      var i := FirstLogged(Loop(ids, f, ms, a), x);
      j == if i < |ids| then i else if SameCD(id, x) && k > 0 then |ids| else |ids| + 1
  {
    hide FirstLogged, Loop, Part, Logs;
    PartIs(f, m, k);
    FirstLoggedPush(Loop(ids, f, ms, a), Child(id, Part(f, m, k), a), x);
  }

  /** The open iteration, on the records there are. */
  lemma {:induction false} LastRecites(ids: seq<CDID>, f: nat, ms: seq<Mpi>, id: CDID, m: Mpi, k: nat, a: Alloc)
    requires |ids| == |ms| && k <= 2 && SameData(ids, ms)
    ensures
      var acts := Unfinished(ids, f, ms, id, m, k, a);
      KidRecites(acts[|ids|], acts) <==> k == 0 || SameAsBefore(ids, ms, id, m)
  {
    hide FirstLogged, Receive, Logs, Recites, Part;
    var acts := Unfinished(ids, f, ms, id, m, k, a);
    FirstOfUnfinished(ids, f, ms, id, m, k, a, id);
    FirstOfLoop(ids, f, ms, a, id);
    assert SameCD(id, id);
    PartIs(f, m, k);
    var j := FirstLogged(acts, id);
    if j < |ids| {
      assert acts[j] == Loop(ids, f, ms, a)[j];
      PartIs(f, ms[j], 2);
      PartRecites(f, m, k, ms[j], 2);
    } else if j == |ids| {
      PartRecites(f, m, k, m, k);
    }
  }

  lemma {:induction false} UnfinishedRecites(ids: seq<CDID>, f: nat, ms: seq<Mpi>, id: CDID, m: Mpi, k: nat, a: Alloc)
    requires |ids| == |ms| && k <= 2
    ensures
      var acts := Unfinished(ids, f, ms, id, m, k, a);
      Recites(acts, acts) <==> SameData(ids, ms) && (k == 0 || SameAsBefore(ids, ms, id, m))
  {
    hide FirstLogged, Receive, Logs, OwnTrace, Follows, Text, OwnCallsPlay, Part, SameData, SameAsBefore;
    var acts, loop := Unfinished(ids, f, ms, id, m, k, a), Loop(ids, f, ms, a);
    NoOwnTrace(acts);
    NoOwnTrace(loop);
    LoopRecites(ids, f, ms, a);
    forall i | 0 <= i < |ids|
      ensures acts[i] == loop[i] && loop[i].Child? && (KidRecites(acts[i], acts) <==> KidRecites(loop[i], loop))
    {
      FirstOfUnfinished(ids, f, ms, id, m, k, a, ids[i]);
      FirstOfLoop(ids, f, ms, a, ids[i]);
      assert SameCD(ids[i], ids[i]);
      assert acts[FirstLogged(loop, ids[i])] == loop[FirstLogged(loop, ids[i])];
    }
    if SameData(ids, ms) {
      LastRecites(ids, f, ms, id, m, k, a);
    }
  }

  // ---- no request open ----

  lemma {:induction false} OwnActsThen(x: seq<Act>, a: Act, b: OwnRequests.Books)
    requires LegalActs(x) && LegalAct(a) && LegalActs(x + [a])
    ensures OwnActs(x + [a], b) == match OwnActs(x, b) case None => None case Some(d) => OwnAct(a, d)
    decreases |x|
  {
    hide OwnAct, LegalAct;
    var all := x + [a];
    if x == [] {
      assert all[1..] == [] && all[0] == a;
    } else {
      assert all[1..] == x[1..] + [a] && all[0] == x[0];
      LegalSplit(x);
      LegalSplit(all);
      if OwnAct(x[0], b).Some? {
        OwnActsThen(x[1..], a, OwnAct(x[0], b).value);
      }
    }
  }

  lemma {:induction false} PartIsLegal(f: nat, m: Mpi, k: nat)
    requires k <= 2 && f != 0 && |m.junk| == |m.data|
    ensures LegalActs(Part(f, m, k))
  {
    ReceiveIsOwn(f, m);
  }

  lemma {:induction false} UnfinishedIsOwn(ids: seq<CDID>, f: nat, ms: seq<Mpi>, id: CDID, m: Mpi, k: nat, a: Alloc,
                                           root: CDID)
    requires Iterations(ids, f, ms) && |m.junk| == |m.data| && k <= 2 && k != 1
    ensures
      var acts := Unfinished(ids, f, ms, id, m, k, a);
      LegalActs(acts) && SelfContained(acts)
  {
    hide Receive, Loop, LegalActs, Part, RecordRun, ValidPath;
    var last := Child(id, Part(f, m, k), a);
    UnfinishedIsLegal(ids, f, ms, id, m, k, a);
    BeginValid([], root);
    LoopRuns([] + [Fresh(root)], ids, f, ms, a);
    PartIs(f, m, k);
    ReceiveIsOwn(f, m);
    OwnActsThen(Loop(ids, f, ms, a), last, NONE);
  }

  lemma {:induction false} UnfinishedIsLegal(ids: seq<CDID>, f: nat, ms: seq<Mpi>, id: CDID, m: Mpi, k: nat, a: Alloc)
    requires Iterations(ids, f, ms) && |m.junk| == |m.data| && k <= 2
    ensures LegalActs(Loop(ids, f, ms, a)) && LegalActs(Part(f, m, k))
    ensures LegalAct(Child(id, Part(f, m, k), a)) && LegalActs(Unfinished(ids, f, ms, id, m, k, a))
  {
    hide Part;
    LoopIsLegal(ids, f, ms, a);
    PartIsLegal(f, m, k);
    var last := Child(id, Part(f, m, k), a);
    assert LegalAct(last) && LegalActs([last]);
    LegalParts(Loop(ids, f, ms, a), [last]);
  }

  // ---- a request that has not been waited for ----

  lemma {:induction false} PageThen(g: seq<Page>, x: seq<Act>, a: Act)
    requires g != [] && LegalActs(x) && LegalAct(a) && LegalActs(x + [a])
    ensures PageRun(g, x + [a]) == PageAct(PageRun(g, x), a)
    decreases |x|
  {
    hide PageAct, LegalAct;
    var all := x + [a];
    if x == [] {
      assert all[1..] == [] && all[0] == a;
    } else {
      assert all[1..] == x[1..] + [a] && all[0] == x[0];
      LegalSplit(x);
      LegalSplit(all);
      PageThen(PageAct(g, x[0]), x[1..], a);
    }
  }

  /** The open iteration's record has a hole. */
  lemma {:induction false} HoleOnPaper(g: seq<Page>, f: nat, m: Mpi, id: CDID, a: Alloc)
    requires |g| == 1 && f != 0 && |m.junk| == |m.data| && LegalAct(Child(id, Part(f, m, 1), a))
    ensures
      var h := PageAct(g, Child(id, Part(f, m, 1), a));
      h[0].reqs == g[0].reqs && h[0].kids == g[0].kids + [Leaf([Hole(f, |m.data|)], [])]
  {
    PartIs(f, m, 1);
    var body, p := Part(f, m, 1), g + [BLANK];
    PartIsLegal(f, m, 1);
    assert body == [Do(Irecv(f, |m.data|, false), m)] && body[1..] == [];
    var it := Incomplete(f, m.data, true, false, m.task);
    assert Posts(body[0].call, m) == [it];
    assert PageRun(p, body) == Open(p, it);
    assert [] + [Hole(f, |m.data|)] == [Hole(f, |m.data|)];
  }

  /** The finished iterations on paper. */
  lemma {:induction false} LoopOnPaper(root: CDID, ids: seq<CDID>, f: nat, ms: seq<Mpi>, a: Alloc)
    requires Iterations(ids, f, ms) && LegalActs(Loop(ids, f, ms, a))
    ensures
      var loop := Loop(ids, f, ms, a);
      var g := PageRun([BLANK], loop)[0];
      LeafSettled(g.reqs, g.kids, loop) && |g.kids| == Records(loop)
  {
    hide PageRun, OwnActs, TidyPage, LeafSettled, LegalActs, Clean, RecordRun, MatchKids, Represents, Valid, Loop;
    hide Records;
    hide FirstTree, FirstLogged, MatchTree;
    var loop, p := Loop(ids, f, ms, a), [Fresh(root)];
    BeginValid([], root);
    assert [] + p == p;
    LoopRuns(p, ids, f, ms, a);
    BlankTidy();
    RunTidy([BLANK], loop, [], NONE);
    assert [] + loop == loop;
    var g := PageRun([BLANK], loop)[0];
    NothingLeft(g, loop, NONE);
    CleanSettles(g.reqs, g.kids, loop);
    FreshSim(root);
    assert Sim(p, [BLANK]);
    RunSim(p, [BLANK], loop);
    RecordedShows(p, loop);
    var c := Top(RecordRun(p, loop).value);
    assert SimCd(c, g);
    FoundKid(c.kids, loop, root);
  }

  lemma {:induction false} EarlierSettled(g: Page, ids: seq<CDID>, f: nat, ms: seq<Mpi>, id: CDID, m: Mpi, a: Alloc,
                                          leaf: Leaf, x: CDID)
    requires |ids| == |ms|
    requires
      var loop := Loop(ids, f, ms, a);
      LeafSettled(g.reqs, g.kids, loop) && FirstLogged(loop, x) < |ids|
    ensures
      var acts := Unfinished(ids, f, ms, id, m, 1, a);
      var j := FirstLogged(acts, x);
      && j < |ids| && acts[j].Child?
      && var k := Records(acts[..j]);
      k < |g.kids| + 1 && LeafSettled((g.kids + [leaf])[k].reqs, (g.kids + [leaf])[k].kids, acts[j].body)
  {
    hide FirstLogged, Receive, Logs, OwnTrace, WantedOf, Part, Records;
    var acts, loop := Unfinished(ids, f, ms, id, m, 1, a), Loop(ids, f, ms, a);
    FirstOfUnfinished(ids, f, ms, id, m, 1, a, x);
    var j := FirstLogged(loop, x);
    FirstIsChild(loop, x);
    SameFirst(loop, loop[j].id, x);
    assert acts[..j] == loop[..j] && acts[j] == loop[j];
    assert KidSettled(g.kids, loop, j);
  }

  lemma {:induction false} OpenLeaf(f: nat, m: Mpi)
    ensures !LeafSettled([Hole(f, |m.data|)], [], Part(f, m, 1))
  {
    PartIs(f, m, 1);
    var x := Receive(f, m)[0];
    OneTrace(x);
    assert WantedOf([Slot(f, m.data)]) == [Data(f, m.data)] + [];
    assert [Hole(f, |m.data|)][0] != [Data(f, m.data)][0];
  }

  lemma {:induction false} OpenSettles(root: CDID, ids: seq<CDID>, f: nat, ms: seq<Mpi>, id: CDID, m: Mpi, a: Alloc)
    requires Iterations(ids, f, ms) && |m.junk| == |m.data|
    ensures
      var acts := Unfinished(ids, f, ms, id, m, 1, a);
      && LegalActs(acts)
      && var g := PageRun([BLANK], acts)[0];
      LeafSettled(g.reqs, g.kids, acts) <==> Seen(ids, id)
  {
    hide PageRun, PageAct, FirstLogged, Receive, Logs, OwnTrace, WantedOf, Part, Records, LegalActs, LegalAct;
    var acts, loop := Unfinished(ids, f, ms, id, m, 1, a), Loop(ids, f, ms, a);
    var last, leaf := Child(id, Part(f, m, 1), a), Leaf([Hole(f, |m.data|)], []);
    UnfinishedIsLegal(ids, f, ms, id, m, 1, a);
    LoopOnPaper(root, ids, f, ms, a);
    PageThen([BLANK], loop, last);
    var g := PageRun([BLANK], loop)[0];
    HoleOnPaper(PageRun([BLANK], loop), f, m, id, a);
    NoOwnTrace(acts);
    NoOwnTrace(loop);
    var kids := g.kids + [leaf];
    forall i | 0 <= i < |ids|
      ensures acts[i].Child? && KidSettled(kids, acts, i)
    {
      FirstOfLoop(ids, f, ms, a, ids[i]);
      assert SameCD(ids[i], ids[i]);
      EarlierSettled(g, ids, f, ms, id, m, a, leaf, ids[i]);
    }
    FirstOfLoop(ids, f, ms, a, id);
    if FirstLogged(loop, id) < |ids| {
      EarlierSettled(g, ids, f, ms, id, m, a, leaf, id);
      assert KidSettled(kids, acts, |ids|);
    } else {
      FirstOfUnfinished(ids, f, ms, id, m, 1, a, id);
      assert SameCD(id, id) && acts[..|ids|] == loop && acts[|ids|] == last;
      OpenLeaf(f, m);
      assert !KidSettled(kids, acts, |ids|);
    }
  }

  // ---- the loop, interrupted ----

  lemma {:induction false} OpenLoopRuns(root: CDID, ids: seq<CDID>, f: nat, ms: seq<Mpi>, id: CDID, m: Mpi, k: nat,
                                        a: Alloc)
    requires Iterations(ids, f, ms) && |m.junk| == |m.data| && k <= 2
    ensures
      var frames := OpenFrames(root, ids, f, ms, id, m, k, a);
      && Whole(frames) == Unfinished(ids, f, ms, id, m, k, a) && LegalActs(Whole(frames))
      && OpenRun([], frames).Some?
  {
    hide Valid, ValidCd, Loop, LegalActs, Part, Receive, RecordRun;
    var frames, acts := OpenFrames(root, ids, f, ms, id, m, k, a), Loop(ids, f, ms, a);
    UnfinishedIsLegal(ids, f, ms, id, m, k, a);
    assert frames[1..] == [frames[1]] && Whole(frames[1..]) == Part(f, m, k);
    BeginValid([], root);
    var p := [] + [Fresh(root)];
    LoopRuns(p, ids, f, ms, a);
    var q := RecordRun(p, acts).value;
    BeginValid(q, id);
    PartRuns(q + [Fresh(id)], id, f, m, k);
    assert OpenRun(q, frames[1..]) == RecordRun(q + [Fresh(id)], Part(f, m, k));
  }

  lemma {:induction false} PartRuns(p: seq<Cd>, id: CDID, f: nat, m: Mpi, k: nat)
    requires ValidPath(p) && Top(p) == Fresh(id) && f != 0 && |m.junk| == |m.data| && k <= 2 && LegalActs(Part(f, m, k))
    ensures RecordRun(p, Part(f, m, k)).Some?
  {
    hide Valid, ValidCd, Post;
    PartIs(f, m, k);
    if k == 2 {
      ReceiveRuns(p, id, f, m);
    } else if k == 1 {
      var body := Part(f, m, 1);
      assert body[1..] == [] && RecordAct(p, body[0]).Some?;
    }
  }

  /**
    The loop, interrupted inside an iteration after `k` of its calls and rolled back to the root: it is answered
    from the logs up to the interruption exactly if the finished iterations that share an ID received the same,
    the open one received what those before it under its ID did if it asked at all, and, if it had asked but not
    waited, some iteration before it has its ID.
   */
  lemma {:induction false} LoopInterrupted(root: CDID, ids: seq<CDID>, f: nat, ms: seq<Mpi>, id: CDID, m: Mpi, k: nat,
                                           a: Alloc)
    requires Iterations(ids, f, ms) && |m.junk| == |m.data| && k <= 2
    ensures
      var frames := OpenFrames(root, ids, f, ms, id, m, k, a);
      && LegalActs(Whole(frames)) && OpenRun([], frames).Some?
      && var c := Top(RollBack(OpenRun([], frames).value, 0, [a, a]));
      && Valid(c.log)
      && (Resumes(c.log, c.kids, frames) <==>
            && SameData(ids, ms) && (k > 0 ==> SameAsBefore(ids, ms, id, m))
            && (k == 1 ==> Seen(ids, id)))
  {
    hide Valid, Loop, Resumes, RollBack, LegalActs, Recites, SameData, SameAsBefore, Seen, OpenRun, Whole;
    hide SelfContained;
    hide LeafSettled, Distinct, Unfinished;
    var frames := OpenFrames(root, ids, f, ms, id, m, k, a);
    OpenLoopRuns(root, ids, f, ms, id, m, k, a);
    UnfinishedRecites(ids, f, ms, id, m, k, a);
    if k == 1 {
      OpenSettles(root, ids, f, ms, id, m, a);
      ReplaysExactly(frames, [a, a]);
    } else {
      UnfinishedIsOwn(ids, f, ms, id, m, k, a, root);
      SelfContainedReplays(frames, [a, a]);
    }
  }
}
