/**
  A simple discipline under which every run can be replayed: each CD completes the requests it starts, each
  once, and does not use the address of one of them again. Other CDs may.
 */
module OwnRequests {
  import opened Bytes
  import LogModel
  import opened Replay
  import opened CdLogs
  import opened Wrappers
  import opened WholeRun
  import opened WholeReplay
  import opened Requests
  import opened LogRollback
  import opened Ledger
  import opened Siblings
  import opened Settled

  /** The addresses a CD has used for requests, with what each receives, and those it has not completed. */
  datatype Books = Books(used: map<nat, seq<byte>>, open: set<nat>)

  const NONE := Books(map[], {})

  /** Completing these, one after the other, each of them open at that moment. */
  function Strike(flags: seq<nat>, open: set<nat>): Option<set<nat>>
  {
    if flags == [] then Some(open)
    else if flags[0] !in open then None
    else Strike(flags[1..], open - {flags[0]})
  }

  ghost function OwnCall(c: Call, m: Mpi, b: Books): Option<Books>
    requires Legal(c, m)
  {
    if Blocking(c) then
      var open :- Strike(Completes(c, m), b.open);
      Some(b.(open := open))
    else if c.intra || c.req in b.used then None
    else Some(Enter(b, Posts(c, m)[0]))
  }

  function Enter(b: Books, it: Incomplete): Books
  {
    Books(b.used[it.flag := it.arrives], b.open + {it.flag})
  }

  /** None: some request is completed elsewhere, twice or never, an address is reused, or a message stays inside. */
  ghost function OwnActs(acts: seq<Act>, b: Books): Option<Books>
    requires LegalActs(acts)
    decreases acts, 0
  {
    if acts == [] then Some(b)
    else
      assert LegalAct(acts[0]);
      var d :- OwnAct(acts[0], b);
      OwnActs(acts[1..], d)
  }

  ghost function OwnAct(a: Act, b: Books): Option<Books>
    requires LegalAct(a)
    decreases a, 1
  {
    match a
    case Do(c, m) => OwnCall(c, m, b)
    case Child(_, body, _) =>
      var d :- OwnActs(body, NONE);
      if d.open == {} then Some(b) else None
  }

  /** The whole of a CD's work, with its children's. */
  ghost predicate SelfContained(acts: seq<Act>)
    requires LegalActs(acts)
  {
    OwnActs(acts, NONE).Some? && OwnActs(acts, NONE).value.open == {}
  }

  // ---- the page against the books ----

  /** `wanted` is what the page's requests should end with. */
  ghost predicate TidyReqs(reqs: seq<Item>, wanted: seq<Item>, b: Books)
  {
    && b.open <= b.used.Keys
    && (forall i :: 0 <= i < |reqs| ==> reqs[i].flag in b.used)
    && (forall i, j :: 0 <= i < j < |reqs| ==> reqs[i].flag != reqs[j].flag)
    && (forall i :: 0 <= i < |reqs| && reqs[i].flag !in b.open ==> reqs[i] == Data(reqs[i].flag, b.used[reqs[i].flag]))
    && (forall f :: f in b.open ==> FirstReq(reqs, f) < |reqs|)
    && |wanted| == |reqs|
    && (forall i :: 0 <= i < |reqs| ==> wanted[i] == Data(reqs[i].flag, b.used[reqs[i].flag]))
  }

  ghost predicate TidyNotes(s: seq<Incomplete>, b: Books)
  {
    && (forall f :: f in b.open ==> FindFlag(s, f) < |s|)
    && (forall k :: 0 <= k < |s| ==> s[k].flag in b.open && !s[k].intra)
    && (forall k :: 0 <= k < |s| ==> s[k].flag in b.used && s[k].arrives == b.used[s[k].flag])
    && (forall k, l :: 0 <= k < l < |s| ==> s[k].flag != s[l].flag)
  }

  ghost predicate Tidy(g: Page, wanted: seq<Item>, b: Books)
  {
    TidyReqs(g.reqs, wanted, b) && TidyNotes(g.notes, b)
  }

  lemma {:induction false} FirstReqThere(reqs: seq<Item>, f: nat, i: nat)
    requires i < |reqs| && reqs[i].flag == f
    ensures FirstReq(reqs, f) < |reqs|
  {
  }

  lemma {:induction false} FindFlagThere(s: seq<Incomplete>, f: nat, k: nat)
    requires k < |s| && s[k].flag == f
    ensures FindFlag(s, f) < |s|
  {
  }

  lemma {:induction false} OpenTidy(g: Page, wanted: seq<Item>, b: Books, it: Incomplete)
    requires Tidy(g, wanted, b) && it.flag !in b.used && !it.intra
    ensures Tidy(g.(reqs := g.reqs + [Hole(it.flag, |it.arrives|)], notes := g.notes + [it]),
                 wanted + [Data(it.flag, it.arrives)], Enter(b, it))
  {
    OpenReqs(g.reqs, wanted, b, it);
    OpenNotes(g.notes, b, it);
  }

  lemma {:induction false} OpenReqs(reqs: seq<Item>, wanted: seq<Item>, b: Books, it: Incomplete)
    requires TidyReqs(reqs, wanted, b) && it.flag !in b.used
    ensures TidyReqs(reqs + [Hole(it.flag, |it.arrives|)], wanted + [Data(it.flag, it.arrives)], Enter(b, it))
  {
    hide FirstReq;
    var u := reqs + [Hole(it.flag, |it.arrives|)];
    forall f | f in b.open + {it.flag}
      ensures FirstReq(u, f) < |u|
    {
      FirstReqThere(u, f, if f == it.flag then |reqs| else FirstReq(reqs, f));
    }
  }

  lemma {:induction false} OpenNotes(s: seq<Incomplete>, b: Books, it: Incomplete)
    requires TidyNotes(s, b) && it.flag !in b.used && b.open <= b.used.Keys && !it.intra
    ensures TidyNotes(s + [it], Enter(b, it))
  {
    hide FindFlag;
    var u := s + [it];
    forall f | f in b.open + {it.flag}
      ensures FindFlag(u, f) < |u|
    {
      FindFlagThere(u, f, if f == it.flag then |s| else FindFlag(s, f));
    }
  }

  lemma {:induction false} CloseReqs(reqs: seq<Item>, wanted: seq<Item>, b: Books, f: nat)
    requires TidyReqs(reqs, wanted, b) && f in b.open
    ensures f in b.used && TidyReqs(Deliver(reqs, b.used[f], f), wanted, b.(open := b.open - {f}))
  {
    hide FirstReq;
    var u := Deliver(reqs, b.used[f], f);
    assert forall i :: 0 <= i < |reqs| ==> u[i].flag == reqs[i].flag;
    forall g | g in b.open - {f}
      ensures FirstReq(u, g) < |u|
    {
      FirstReqThere(u, g, FirstReq(reqs, g));
    }
  }

  lemma {:induction false} CloseNotes(s: seq<Incomplete>, b: Books, f: nat)
    requires TidyNotes(s, b) && f in b.open
    ensures FindFlag(s, f) < |s| && TidyNotes(Remove(s, FindFlag(s, f)), b.(open := b.open - {f}))
    ensures !s[FindFlag(s, f)].intra && f in b.used && s[FindFlag(s, f)].arrives == b.used[f]
  {
    hide FindFlag;
    var j := FindFlag(s, f);
    var u := Remove(s, j);
    forall g | g in b.open - {f}
      ensures FindFlag(u, g) < |u|
    {
      var k := FindFlag(s, g);
      FindFlagThere(u, g, if k < j then k else k - 1);
    }
  }

  // ---- calls change only the current page ----

  /** Only the last page differs, and not in its finished children. */
  ghost predicate OnlyTop(g: seq<Page>, h: seq<Page>)
  {
    && g != [] && |g| == |h| && h[..|g| - 1] == g[..|g| - 1]
    && h[|g| - 1].kids == g[|g| - 1].kids
  }

  lemma {:induction false} CloseTidy(g: seq<Page>, wanted: seq<Item>, b: Books, f: nat)
    requires g != [] && Tidy(g[|g| - 1], wanted, b) && f in b.open
    ensures OnlyTop(g, Close(g, f)) && Tidy(Close(g, f)[|g| - 1], wanted, b.(open := b.open - {f}))
  {
    hide FindFlag, FirstReq, TidyReqs, TidyNotes, Deliver;
    var t := |g| - 1;
    CloseNotes(g[t].notes, b, f);
    assert Keeper(g, f) == Some(t);
    CloseReqs(g[t].reqs, wanted, b, f);
    assert FirstReq(g[t].reqs, f) < |g[t].reqs| by { OpenIsThere(g[t].reqs, wanted, b, f); }
  }

  lemma OpenIsThere(reqs: seq<Item>, wanted: seq<Item>, b: Books, f: nat)
    requires TidyReqs(reqs, wanted, b) && f in b.open
    ensures FirstReq(reqs, f) < |reqs|
  {
  }

  lemma {:induction false} CloseAllTidy(g: seq<Page>, wanted: seq<Item>, b: Books, flags: seq<nat>)
    requires g != [] && Tidy(g[|g| - 1], wanted, b) && Strike(flags, b.open).Some?
    ensures OnlyTop(g, CloseAll(g, flags))
    ensures Tidy(CloseAll(g, flags)[|g| - 1], wanted, b.(open := Strike(flags, b.open).value))
    decreases |flags|
  {
    hide Tidy, Close;
    if flags != [] {
      CloseTidy(g, wanted, b, flags[0]);
      CloseAllTidy(Close(g, flags[0]), wanted, b.(open := b.open - {flags[0]}), flags[1..]);
    }
  }

  lemma {:induction false} CallTidy(g: seq<Page>, wanted: seq<Item>, b: Books, c: Call, m: Mpi)
    requires g != [] && Tidy(g[|g| - 1], wanted, b) && Legal(c, m) && OwnCall(c, m, b).Some?
    ensures OnlyTop(g, PageCall(g, c, m))
    ensures Tidy(PageCall(g, c, m)[|g| - 1], wanted + WantedOf(Trace(c, m)), OwnCall(c, m, b).value)
  {
    hide Tidy, CloseAll, Strike, WantedOf, Trace;
    if Blocking(c) {
      CloseAllTidy(g, wanted, b, Completes(c, m));
      BlockingWants(c, m);
      assert wanted + [] == wanted;
    } else {
      OpenTidy(g[|g| - 1], wanted, b, Posts(c, m)[0]);
      PostWants(c, m);
    }
  }

  lemma {:induction false} NoSlots(ideals: seq<Ideal>)
    requires forall i :: 0 <= i < |ideals| ==> ideals[i].Fixed?
    ensures WantedOf(ideals) == []
  {
    if ideals != [] {
      NoSlots(ideals[1..]);
    }
  }

  lemma {:induction false} BlockingWants(c: Call, m: Mpi)
    requires Blocking(c)
    ensures WantedOf(Trace(c, m)) == []
  {
    hide Trace;
    forall i | 0 <= i < |Trace(c, m)|
      ensures Trace(c, m)[i].Fixed?
    {
      BlockingFixed(c, m, i);
    }
    NoSlots(Trace(c, m));
  }

  lemma {:induction false} PostWants(c: Call, m: Mpi)
    requires !Blocking(c)
    ensures WantedOf(Trace(c, m)) == [Data(Posts(c, m)[0].flag, Posts(c, m)[0].arrives)]
  {
    assert Trace(c, m)[1..] == [];
  }

  lemma {:induction false} WantedAppend(x: seq<Ideal>, y: seq<Ideal>)
    ensures WantedOf(x + y) == WantedOf(x) + WantedOf(y)
  {
    if x == [] {
      assert x + y == y;
    } else {
      WantedAppend(x[1..], y);
      assert (x + y)[1..] == x[1..] + y && (x + y)[0] == x[0];
      var h: seq<Item> := if x[0].Slot? then [Data(x[0].flag, x[0].want)] else [];
      assert h + (WantedOf(x[1..]) + WantedOf(y)) == h + WantedOf(x[1..]) + WantedOf(y);
    }
  }

  function Wants(acts: seq<Act>): seq<Item>
  {
    WantedOf(OwnTrace(acts))
  }

  lemma {:induction false} WantsAppend(done: seq<Act>, a: Act)
    ensures Wants(done + [a]) == Wants(done) + WantedOf(ActTrace(a))
  {
    OwnTraceAppend(done, [a]);
    assert [a][1..] == [] && OwnTrace([a]) == ActTrace(a) + [] == ActTrace(a);
    WantedAppend(OwnTrace(done), OwnTrace([a]));
  }

  // ---- whole runs ----

  /** Every finished child, and every one of theirs, has its own data in all its requests. */
  ghost predicate Clean(reqs: seq<Item>, kids: seq<Leaf>, acts: seq<Act>)
    decreases acts, 1
  {
    reqs == Wants(acts) && CleanKids(kids, acts)
  }

  ghost predicate CleanKids(kids: seq<Leaf>, acts: seq<Act>)
    decreases acts, 0
  {
    && |kids| == Records(acts)
    && forall j :: 0 <= j < |acts| && acts[j].Child? && Logs(acts[j].body) ==>
         var k := Records(acts[..j]);
         k < |kids| && Clean(kids[k].reqs, kids[k].kids, acts[j].body)
  }

  ghost predicate TidyPage(g: Page, done: seq<Act>, b: Books)
  {
    Tidy(g, Wants(done), b) && CleanKids(g.kids, done)
  }

  /** In such a run a request is open on its page exactly if it is in the books, and no other page is touched. */
  lemma {:induction false} RunTidy(g: seq<Page>, acts: seq<Act>, done: seq<Act>, b: Books)
    requires g != [] && LegalActs(acts) && TidyPage(g[|g| - 1], done, b) && OwnActs(acts, b).Some?
    ensures
      var h := PageRun(g, acts);
      h[..|g| - 1] == g[..|g| - 1] && TidyPage(h[|g| - 1], done + acts, OwnActs(acts, b).value)
    decreases acts, 0
  {
    hide TidyPage, PageAct, OwnAct;
    if acts == [] {
      assert done + acts == done;
    } else {
      assert LegalAct(acts[0]);
      ActTidy(g, acts[0], done, b);
      RunTidy(PageAct(g, acts[0]), acts[1..], done + [acts[0]], OwnAct(acts[0], b).value);
      assert done + [acts[0]] + acts[1..] == done + acts;
    }
  }

  lemma {:induction false} ActTidy(g: seq<Page>, a: Act, done: seq<Act>, b: Books)
    requires g != [] && LegalAct(a) && TidyPage(g[|g| - 1], done, b) && OwnAct(a, b).Some?
    ensures
      var h := PageAct(g, a);
      h[..|g| - 1] == g[..|g| - 1] && TidyPage(h[|g| - 1], done + [a], OwnAct(a, b).value)
    decreases a, 1
  {
    hide Tidy, PageCall, OwnCall, PageRun, OwnActs, CleanKids, Wants, WantedOf, Logs;
    var t := |g| - 1;
    WantsAppend(done, a);
    match a
    case Do(c, m) =>
      CallTidy(g, Wants(done), b, c, m);
      CleanAppend(g[t].kids, done, a);
    case Child(_, body, _) =>
      BlankTidy();
      RunTidy(g + [BLANK], body, [], NONE);
      assert [] + body == body;
      var h := PageRun(g + [BLANK], body);
      assert h[..|g|] == g;
      NothingLeft(h[t + 1], body, OwnActs(body, NONE).value);
      FoldTidy(h, a, done, b);
  }

  /** A CD with nothing left goes into its parent's page as it should. */
  lemma {:induction false} FoldTidy(h: seq<Page>, a: Act, done: seq<Act>, b: Books)
    requires |h| >= 2 && a.Child? && TidyPage(h[|h| - 2], done, b)
    requires Clean(h[|h| - 1].reqs, h[|h| - 1].kids, a.body) && h[|h| - 1].notes == []
    ensures TidyPage(Fold(h, Logs(a.body))[|h| - 2], done + [a], b)
  {
    hide TidyReqs, TidyNotes, CleanKids, Clean, Wants, WantedOf, Logs;
    var parent, c := h[|h| - 2], h[|h| - 1];
    WantsAppend(done, a);
    assert WantedOf([]) == [] by { NoSlots([]); }
    assert Wants(done) + [] == Wants(done) && parent.notes + [] == parent.notes;
    if Logs(a.body) {
      CleanPush(parent.kids, done, a, Leaf(c.reqs, c.kids));
    } else {
      CleanAppend(parent.kids, done, a);
    }
  }

  lemma BlankTidy()
    ensures TidyPage(BLANK, [], NONE)
  {
  }

  /** With nothing open every request has its own data, and no note is left. */
  lemma {:induction false} NothingLeft(g: Page, acts: seq<Act>, b: Books)
    requires TidyPage(g, acts, b) && b.open == {}
    ensures Clean(g.reqs, g.kids, acts) && g.notes == []
  {
    hide CleanKids, Wants, FirstReq, FindFlag;
    assert g.reqs == Wants(acts);
    NothingNoted(g.notes, b);
  }

  lemma NothingNoted(s: seq<Incomplete>, b: Books)
    requires TidyNotes(s, b)
    ensures s != [] ==> b.open != {}
  {
    if s != [] {
      assert s[0].flag in b.open;
    }
  }

  lemma {:induction false} CleanAppend(kids: seq<Leaf>, done: seq<Act>, a: Act)
    requires (a.Do? || !Logs(a.body)) && CleanKids(kids, done)
    ensures CleanKids(kids, done + [a])
  {
    hide Logs, Wants;
    var all := done + [a];
    assert all[..|done|] == done;
    forall j | 0 <= j < |all| && all[j].Child? && Logs(all[j].body)
      ensures
        var k := Records(all[..j]);
        k < |kids| && Clean(kids[k].reqs, kids[k].kids, all[j].body)
    {
      assert all[..j] == done[..j] && all[j] == done[j];
    }
  }

  lemma {:induction false} CleanPush(kids: seq<Leaf>, done: seq<Act>, a: Act, leaf: Leaf)
    requires a.Child? && Logs(a.body) && Clean(leaf.reqs, leaf.kids, a.body) && CleanKids(kids, done)
    ensures CleanKids(kids + [leaf], done + [a])
  {
    hide Logs, Wants;
    var all := done + [a];
    assert all[..|done|] == done;
    forall j | 0 <= j < |all| && all[j].Child? && Logs(all[j].body)
      ensures
        var k := Records(all[..j]);
        k < |kids| + 1 && Clean((kids + [leaf])[k].reqs, (kids + [leaf])[k].kids, all[j].body)
    {
      if j < |done| {
        assert all[..j] == done[..j] && all[j] == done[j];
      }
    }
  }

  // ---- what is left of the condition ----

  lemma {:induction false} CleanSettles(reqs: seq<Item>, kids: seq<Leaf>, acts: seq<Act>)
    requires Clean(reqs, kids, acts)
    ensures LeafSettled(reqs, kids, acts)
    decreases acts
  {
    hide Logs, FirstLogged, Records, WantedOf, OwnTrace;
    forall i | 0 <= i < |acts| && acts[i].Child?
      ensures KidSettled(kids, acts, i)
    {
      var j := FirstLogged(acts, acts[i].id);
      if j < |acts| {
        var k := Records(acts[..j]);
        assert LoggedUnder(acts[j], acts[i].id);
        CleanSettles(kids[k].reqs, kids[k].kids, acts[j].body);
      }
    }
  }

  lemma {:induction false} OwnNotReissued(acts: seq<Act>, b: Books)
    requires LegalActs(acts) && OwnActs(acts, b).Some?
    ensures NoneReissued(acts)
    decreases acts, 0
  {
    hide OwnCall, NoneReissued, LegalAct;
    if acts == [] {
      assert NoneReissued([]) by { NoneReissuedEmpty(); }
    } else {
      LegalSplit(acts);
      OwnActNotReissued(acts[0], b);
      OwnNotReissued(acts[1..], OwnAct(acts[0], b).value);
      NoneReissuedFront(acts);
    }
  }

  lemma NoneReissuedEmpty()
    ensures NoneReissued([])
  {
  }

  predicate Plays(a: Act)
  {
    match a case Do(c, _) => !Reissued(c) case Child(_, body, _) => NoneReissued(body)
  }

  lemma {:induction false} NoneReissuedFront(acts: seq<Act>)
    requires acts != [] && Plays(acts[0]) && NoneReissued(acts[1..])
    ensures NoneReissued(acts)
  {
    var tail := acts[1..];
    forall i | 0 <= i < |acts|
      ensures acts[i].Do? ==> !Reissued(acts[i].call)
      ensures acts[i].Child? ==> NoneReissued(acts[i].body)
    {
      if i > 0 {
        assert acts[i] == tail[i - 1];
      }
    }
  }

  lemma {:induction false} OwnActNotReissued(a: Act, b: Books)
    requires LegalAct(a) && OwnAct(a, b).Some?
    ensures Plays(a)
    decreases a, 1
  {
    if a.Child? {
      OwnNotReissued(a.body, NONE);
    }
  }

  /** The discipline settles every request, so all that remains is the children that share an ID. */
  lemma {:induction false} SelfContainedSettles(acts: seq<Act>)
    requires LegalActs(acts) && SelfContained(acts)
    ensures RunSettled(acts) <==> Recites(acts, acts)
    ensures Distinct(acts) ==> RunSettled(acts)
  {
    hide PageRun, OwnActs, TidyPage, LeafSettled, NoneReissued, LegalActs, Clean, Recites, Distinct;
    BlankTidy();
    RunTidy([BLANK], acts, [], NONE);
    assert [] + acts == acts;
    var g := PageRun([BLANK], acts)[0];
    NothingLeft(g, acts, OwnActs(acts, NONE).value);
    CleanSettles(g.reqs, g.kids, acts);
    OwnNotReissued(acts, NONE);
    if Distinct(acts) {
      DistinctRecites(acts);
    }
  }

  /**
    A program whose CDs see to their own requests, interrupted anywhere with no request open, and rolled back
    to the root: it is re-run with the same answers and no call of MPI, up to the interruption, exactly if
    each child would have logged what the first child under its ID logged, as far as it got; so always if
    siblings have different IDs. CDs may use each other's addresses, for different data.
   */
  lemma {:induction false} SelfContainedReplays(frames: seq<Frame>, allocs: seq<Alloc>)
    requires frames != [] && LegalActs(Whole(frames)) && SelfContained(Whole(frames))
    requires OpenRun([], frames).Some? && AllocsFit(frames, allocs, 0)
    ensures
      var c, acts := Top(RollBack(OpenRun([], frames).value, 0, allocs)), Whole(frames);
      && LogModel.Valid(c.log) && (Resumes(c.log, c.kids, frames) <==> Recites(acts, acts))
      && (Distinct(acts) ==> Resumes(c.log, c.kids, frames))
  {
    hide LegalActs, SelfContained, OpenRun, RollBack, Whole, Resumes, RunSettled, Recites, Distinct;
    ReplaysExactly(frames, allocs);
    SelfContainedSettles(Whole(frames));
  }
}
