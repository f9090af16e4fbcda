/**
  Replaying whole runs: the CD that recorded is rewound and its acts are done again, each child CD
  pulling its log out of its parent's; MPI is not there to help.
 */
module WholeReplay {
  import opened Bytes
  import opened LogModel
  import opened PackFormat
  import opened Replay
  import opened CdLogs
  import opened Wrappers
  import opened WholeRun

  /** The log a child starts to replay with: unpacked from its parent's, or empty if there is none. */
  function Pulled(kids: seq<Tree>, id: CDID): (r: (Log, seq<Tree>))
  {
    var k := FirstTree(kids, id);
    if k == |kids| then (EMPTY.(mode := ReplayLog), []) else (LogOfTree(kids[k]), kids[k].kids)
  }

  /** On the bytes of the parent's child buffer this is finding and unpacking the child's record. */
  lemma {:induction false} PulledFromBytes(t: Tree, id: CDID)
    requires FitsTree(t)
    ensures
      var k := FirstTree(t.kids, id);
      Extract(ImageOf(t).child, id) ==
        if k == |t.kids| then None
        else
          var img := ImageOf(t.kids[k]);
          Some(Unpacked(PackedLength(img), t.kids[k].id, img, PackedLength(img)))
  {
    hide Extract, PackAll, Fits, FirstId, FirstTree, SameCD;
    var rs := KidRecords(t);
    forall i | 0 <= i < |rs|
      ensures FitsPacked(rs[i])
    {
      assert FitsTree(t.kids[i]);
    }
    ExtractPacked(rs, id);
    assert FirstId(rs, id) == FirstTree(t.kids, id);
  }

  /** None as soon as a call stops or has to go to MPI. */
  ghost function Rerun(l: Log, kids: seq<Tree>, acts: seq<Act>): (r: Option<(Log, seq<Output>)>)
    requires Valid(l) && LegalActs(acts)
    ensures r.Some? ==> Valid(r.value.0)
    decreases acts
  {
    if acts == [] then Some((l, []))
    else
      LegalSplit(acts);
      var step :- RerunAct(l, kids, acts[0]);
      var rest :- Rerun(step.0, kids, acts[1..]);
      Some((rest.0, step.1 + rest.1))
  }

  /** A call, or a child CD: it unpacks its log if its parent is replaying, and runs on that. */
  ghost function RerunAct(l: Log, kids: seq<Tree>, a: Act): (r: Option<(Log, seq<Output>)>)
    requires Valid(l) && LegalAct(a)
    ensures r.Some? ==> Valid(r.value.0)
    decreases a
  {
    match a
    case Do(c, _) => RerunCall(l, c)
    case Child(id, body, _) =>
      var start := Pulled(kids, id);
      if l.mode != ReplayLog || !Valid(start.0) then None
      else
        var r :- Rerun(start.0, start.1, body);
        Some((l, r.1))
  }

  function RerunCall(l: Log, c: Call): (r: Option<(Log, seq<Output>)>)
    requires Valid(l) && (c.Waitall? ==> c.reqs != [])
    ensures r.Some? ==> Valid(r.value.0) && |r.value.1| == 1
  {
    match Read(l, c)
    case Replayed(after, out) => Some((after, [out]))
    case _ => None
  }

  function Outputs(acts: seq<Act>): seq<Output>
    decreases acts
  {
    if acts == [] then [] else ActOutputs(acts[0]) + Outputs(acts[1..])
  }

  function ActOutputs(a: Act): seq<Output>
    decreases a
  {
    match a
    case Do(c, m) => [OutputOf(c, m)]
    case Child(_, body, _) => Outputs(body)
  }

  // ---- which record a child pulls ----

  /** The first child CD under that ID that logged anything, or |acts|. */
  function FirstLogged(acts: seq<Act>, id: CDID): (j: nat)
    ensures j <= |acts|
    ensures j < |acts| ==> LoggedUnder(acts[j], id)
    ensures forall i :: 0 <= i < j ==> !LoggedUnder(acts[i], id)
  {
    if acts == [] then 0 else if LoggedUnder(acts[0], id) then 0 else 1 + FirstLogged(acts[1..], id)
  }

  predicate LoggedUnder(a: Act, id: CDID)
  {
    a.Child? && SameCD(a.id, id) && Logs(a.body)
  }

  lemma {:induction false} FirstLoggedPush(acts: seq<Act>, a: Act, id: CDID)
    ensures FirstLogged(acts + [a], id) ==
            var j := FirstLogged(acts, id);
            if j < |acts| then j else if LoggedUnder(a, id) then j else j + 1
  {
    hide Logs, SameCD;
    var all := acts + [a];
    assert forall i :: 0 <= i < |acts| ==> all[i] == acts[i];
    assert all[|acts|] == a;
  }

  lemma {:induction false} FirstTreePush(kids: seq<Tree>, t: Tree, id: CDID)
    ensures FirstTree(kids + [t], id) ==
            var k := FirstTree(kids, id);
            if k < |kids| then k else if SameCD(t.id, id) then k else k + 1
  {
    var r := FirstTree(kids + [t], id);
    var k := FirstTree(kids, id);
    if r < |kids| {
      assert SameCD(kids[r].id, id);
    }
    if k < |kids| {
      assert SameCD((kids + [t])[k].id, id);
    } else if SameCD(t.id, id) {
      assert SameCD((kids + [t])[|kids|].id, id);
    }
  }

  /** How many child CDs have packed a record. */
  function Records(acts: seq<Act>): nat
  {
    if acts == [] then 0
    else
      var n := |acts| - 1;
      Records(acts[..n]) + if acts[n].Child? && Logs(acts[n].body) then 1 else 0
  }

  /** The record found under the ID is that of the first child CD that logged under it, or there is none. */
  ghost predicate Found(kids: seq<Tree>, acts: seq<Act>, id: CDID)
  {
    var k, j := FirstTree(kids, id), FirstLogged(acts, id);
    && |kids| == Records(acts) && k == Records(acts[..j]) && (k == |kids| <==> j == |acts|)
    && (k < |kids| && j < |acts| ==> kids[k].id == acts[j].id && MatchTree(kids[k], acts[j].body))
  }

  /** Looking a child CD up in its parent's packed children. */
  lemma {:induction false} FoundKid(kids: seq<Tree>, acts: seq<Act>, id: CDID)
    requires MatchKids(kids, acts)
    ensures Found(kids, acts, id)
    decreases |acts|
  {
    hide MatchTree, Logs, FirstTree, FirstLogged, SameCD, Records;
    if acts == [] {
      assert acts[..0] == [] && Records([]) == 0 by { NoRecords(); }
    } else {
      var n := |acts| - 1;
      assert acts == acts[..n] + [acts[n]];
      if acts[n].Child? && Logs(acts[n].body) {
        var m := |kids| - 1;
        FoundKid(kids[..m], acts[..n], id);
        assert kids == kids[..m] + [kids[m]];
        FoundPush(kids[..m], kids[m], acts[..n], acts[n], id);
      } else {
        FoundKid(kids, acts[..n], id);
        FoundSame(kids, acts[..n], acts[n], id);
      }
    }
  }

  lemma NoRecords()
    ensures Records([]) == 0
  {
  }

  lemma {:induction false} RecordsPush(acts: seq<Act>, a: Act)
    ensures Records(acts + [a]) == Records(acts) + if a.Child? && Logs(a.body) then 1 else 0
  {
    hide Logs;
    assert (acts + [a])[..|acts|] == acts;
  }

  lemma {:induction false} FoundPush(kids: seq<Tree>, t: Tree, acts: seq<Act>, a: Act, id: CDID)
    requires Found(kids, acts, id) && a.Child? && Logs(a.body) && t.id == a.id && MatchTree(t, a.body)
    ensures Found(kids + [t], acts + [a], id)
  {
    hide MatchTree, Logs, FirstTree, FirstLogged, SameCD, Records;
    FirstLoggedPush(acts, a, id);
    FirstTreePush(kids, t, id);
    RecordsPush(acts, a);
    Prefixes(acts, a, FirstLogged(acts, id));
  }

  lemma {:induction false} FoundSame(kids: seq<Tree>, acts: seq<Act>, a: Act, id: CDID)
    requires Found(kids, acts, id) && !(a.Child? && Logs(a.body))
    ensures Found(kids, acts + [a], id)
  {
    hide MatchTree, Logs, FirstTree, FirstLogged, SameCD, Records;
    FirstLoggedPush(acts, a, id);
    RecordsPush(acts, a);
    Prefixes(acts, a, FirstLogged(acts, id));
  }

  lemma Prefixes(acts: seq<Act>, a: Act, j: nat)
    requires j <= |acts|
    ensures (acts + [a])[..j] == acts[..j] && acts[..|acts|] == acts && (acts + [a])[..|acts| + 1] == acts + [a]
  {
  }

  lemma {:induction false} TreeShape(t: Tree, acts: seq<Act>)
    requires MatchTree(t, acts)
    ensures Valid(LogOfTree(t)) && AgreesAll(Remaining(LogOfTree(t)), OwnTrace(acts)) && MatchKids(t.kids, acts)
  {
    hide MatchKids, Tiled, Ahead;
  }

  lemma LegalBody(a: Act)
    requires a.Child? && LegalAct(a)
    ensures LegalActs(a.body)
  {
  }

  // ---- an empty log ----

  const NOTHING := EMPTY.(mode := ReplayLog)

  lemma {:induction false} LogsFront(acts: seq<Act>)
    requires acts != []
    ensures Logs(acts) <==> Logs([acts[0]]) || Logs(acts[1..])
    decreases |acts|
  {
    if |acts| == 1 {
      assert acts == [acts[0]];
    } else {
      var n := |acts| - 1;
      LogsFront(acts[..n]);
      assert acts[..n][1..] == acts[1..][..n - 1] && acts[..n][0] == acts[0];
    }
  }

  lemma {:induction false} LogsOne(a: Act)
    ensures Logs([a]) <==> a.Do? || Logs(a.body)
  {
    assert [a][..0] == [];
  }

  /** From an empty log exactly the acts without a single call are answered. */
  lemma {:induction false} NothingReplays(acts: seq<Act>)
    requires LegalActs(acts)
    ensures Valid(NOTHING) && (Good(NOTHING, [], acts) <==> !Logs(acts))
    decreases acts
  {
    hide Logs, LegalAct, RerunCall, GoodAct, Outputs;
    assert Valid(NOTHING);
    if acts == [] {
      assert !Logs(acts) && Outputs([]) == [] by { NoActs(); }
    } else {
      GoodSplit(NOTHING, [], acts);
      LogsFront(acts);
      LogsOne(acts[0]);
      NothingAnswers(acts[0]);
      if acts[0].Child? && !Logs(acts[0].body) {
        NothingReplays(acts[1..]);
      }
    }
  }

  lemma NoActs()
    ensures !Logs([]) && Outputs([]) == []
  {
  }

  lemma {:induction false} NothingAnswers(a: Act)
    requires LegalAct(a) && Valid(NOTHING)
    ensures GoodAct(NOTHING, [], a) <==> a.Child? && !Logs(a.body)
    ensures GoodAct(NOTHING, [], a) ==> RerunAct(NOTHING, [], a).value.0 == NOTHING
    decreases a
  {
    hide Logs, LegalActs, Good;
    if a.Do? {
      assert Remaining(NOTHING) == [];
      PastTheEnd(NOTHING, a.call);
    } else {
      assert Pulled([], a.id) == (NOTHING, []);
      NothingReplays(a.body);
      GoodChild(NOTHING, [], a);
    }
  }

  lemma {:induction false} NotLoggedAt(acts: seq<Act>, i: nat)
    requires !Logs(acts) && i < |acts|
    ensures acts[i].Child? && !Logs(acts[i].body)
    decreases |acts|
  {
    if i < |acts| - 1 {
      NotLoggedAt(acts[..|acts| - 1], i);
    }
  }

  lemma NothingAhead()
    ensures Valid(NOTHING) && Remaining(NOTHING) == []
  {
  }

  // ---- same answers as recorded ----

  lemma {:induction false} RerunLength(l: Log, kids: seq<Tree>, acts: seq<Act>)
    requires Valid(l) && LegalActs(acts) && Rerun(l, kids, acts).Some?
    ensures |Rerun(l, kids, acts).value.1| == |Outputs(acts)|
    decreases acts
  {
    hide Valid, RerunAct, ActOutputs, LegalActs;
    if acts != [] {
      LegalSplit(acts);
      RerunActLength(l, kids, acts[0]);
      RerunLength(RerunAct(l, kids, acts[0]).value.0, kids, acts[1..]);
    }
  }

  lemma {:induction false} RerunActLength(l: Log, kids: seq<Tree>, a: Act)
    requires Valid(l) && LegalAct(a) && RerunAct(l, kids, a).Some?
    ensures |RerunAct(l, kids, a).value.1| == |ActOutputs(a)|
    decreases a
  {
    hide Valid, RerunCall;
    if a.Child? {
      var start := Pulled(kids, a.id);
      RerunLength(start.0, start.1, a.body);
    }
  }

  /** Same answers as recorded, from the log alone. */
  ghost predicate Good(l: Log, kids: seq<Tree>, acts: seq<Act>)
    requires Valid(l) && LegalActs(acts)
  {
    var r := Rerun(l, kids, acts);
    r.Some? && r.value.1 == Outputs(acts)
  }

  ghost predicate GoodAct(l: Log, kids: seq<Tree>, a: Act)
    requires Valid(l) && LegalAct(a)
  {
    var r := RerunAct(l, kids, a);
    r.Some? && r.value.1 == ActOutputs(a)
  }

  /** A run answers as recorded exactly if its first act does and then the others do. */
  lemma {:induction false} GoodSplit(l: Log, kids: seq<Tree>, acts: seq<Act>)
    requires Valid(l) && LegalActs(acts) && acts != []
    ensures LegalAct(acts[0]) && LegalActs(acts[1..])
    ensures Good(l, kids, acts) <==>
            GoodAct(l, kids, acts[0])
            && Good(RerunAct(l, kids, acts[0]).value.0, kids, acts[1..])
  {
    hide Valid, RerunAct, ActOutputs, LegalActs, LegalAct;
    LegalSplit(acts);
    var s := RerunAct(l, kids, acts[0]);
    if s.Some? {
      RerunActLength(l, kids, acts[0]);
      var x, y := s.value.1, ActOutputs(acts[0]);
      var r := Rerun(s.value.0, kids, acts[1..]);
      if r.Some? && x + r.value.1 == y + Outputs(acts[1..]) {
        assert (x + r.value.1)[..|x|] == x && (y + Outputs(acts[1..]))[..|x|] == y;
        assert (x + r.value.1)[|x|..] == r.value.1 && (y + Outputs(acts[1..]))[|x|..] == Outputs(acts[1..]);
      }
    }
  }

  lemma {:induction false} LegalParts(x: seq<Act>, y: seq<Act>)
    ensures LegalActs(x + y) <==> LegalActs(x) && LegalActs(y)
  {
    hide LegalAct;
    var z := x + y;
    assert forall i :: 0 <= i < |x| ==> z[i] == x[i];
    assert forall i :: 0 <= i < |y| ==> z[|x| + i] == y[i];
  }

  lemma {:induction false} GoodThen(l: Log, kids: seq<Tree>, x: seq<Act>, y: seq<Act>)
    requires Valid(l) && LegalActs(x + y) && LegalActs(x) && LegalActs(y) && Good(l, kids, x + y)
    ensures Good(l, kids, x) && Good(Rerun(l, kids, x).value.0, kids, y)
    decreases |x|
  {
    hide Valid, LegalAct, RerunAct, GoodAct, ActOutputs;
    if x == [] {
      assert x + y == y;
    } else {
      var z := x + y;
      assert z[1..] == x[1..] + y && z[0] == x[0];
      GoodSplit(l, kids, z);
      GoodSplit(l, kids, x);
      var m := RerunAct(l, kids, x[0]).value.0;
      GoodThen(m, kids, x[1..], y);
    }
  }

  /** One call of the run, whichever it is. */
  lemma {:induction false} ReplayDo(l: Log, kids: seq<Tree>, a: Act, more: seq<Ideal>) returns (rest: seq<Item>)
    requires a.Do? && LegalAct(a) && Valid(l) && AgreesAll(Remaining(l), Trace(a.call, a.mpi) + more)
    ensures AgreesAll(rest, more) && Suffix(Remaining(l), rest) && |Remaining(l)| - |rest| == |Trace(a.call, a.mpi)|
    ensures GoodAct(l, kids, a) <==>
            DeliveredAll(Remaining(l)[..|Remaining(l)| - |rest|], Trace(a.call, a.mpi)) && !Reissued(a.call)
    ensures GoodAct(l, kids, a) ==>
              var r := RerunAct(l, kids, a).value.0;
              Remaining(r) == rest && r.mode == l.mode
  {
    hide Valid, Remaining, Read, Dec, Int, EncInts;
    var items, c, m := Remaining(l), a.call, a.mpi;
    if Blocking(c) {
      rest := ReplayBlocking(l, c, m, more);
      var n := |items| - |rest|;
      forall i | 0 <= i < n
        ensures Delivered(items[i], Trace(c, m)[i])
      {
        assert Agrees(items[i], (Trace(c, m) + more)[i]);
        assert (Trace(c, m) + more)[i] == Trace(c, m)[i];
        BlockingFixed(c, m, i);
      }
    } else {
      rest := ReplayNonBlocking(l, c, m, more);
      assert items[..1] == [items[0]];
    }
  }

  lemma {:induction false} BlockingFixed(c: Call, m: Mpi, i: nat)
    requires Blocking(c) && i < |Trace(c, m)|
    ensures Trace(c, m)[i].Fixed?
  {
  }

  /** A child CD is answered from the record it pulls. */
  ghost predicate GoodKid(kids: seq<Tree>, a: Act)
    requires a.Child? && LegalAct(a)
  {
    var start := Pulled(kids, a.id);
    Valid(start.0) && Good(start.0, start.1, a.body)
  }

  ghost predicate GoodKids(kids: seq<Tree>, acts: seq<Act>)
    requires LegalActs(acts)
  {
    forall i :: 0 <= i < |acts| && acts[i].Child? ==> GoodKid(kids, acts[i])
  }

  /** No receive of a message inside the CD among its own calls: replay goes to MPI for it. */
  predicate OwnCallsPlay(acts: seq<Act>)
  {
    forall i :: 0 <= i < |acts| && acts[i].Do? ==> !Reissued(acts[i].call)
  }

  /**
    From any point of a replay: the remaining acts are answered as recorded exactly if the CD's own records
    ahead hold what they should, and each remaining child CD is answered from the record it pulls.
   */
  lemma {:induction false} ReplayActs(l: Log, kids: seq<Tree>, acts: seq<Act>)
    requires Valid(l) && l.mode == ReplayLog && LegalActs(acts) && AgreesAll(Remaining(l), OwnTrace(acts))
    ensures Good(l, kids, acts) <==>
            DeliveredAll(Remaining(l), OwnTrace(acts)) && OwnCallsPlay(acts) && GoodKids(kids, acts)
    ensures Good(l, kids, acts) ==>
              var r := Rerun(l, kids, acts).value.0;
              Remaining(r) == [] && r.mode == ReplayLog
    decreases |acts|
  {
    hide Valid, Remaining, LegalAct, GoodKid, AgreesAll, RerunAct, ActOutputs, Trace, DeliveredAll;
    if acts == [] {
      EmptyAgrees(Remaining(l));
    } else {
      var a, tail := acts[0], acts[1..];
      GoodSplit(l, kids, acts);
      TailOfActs(kids, acts);
      if a.Do? {
        var rest := ReplayDo(l, kids, a, OwnTrace(tail));
        var items := Remaining(l);
        var n := |items| - |rest|;
        DeliveredAppend(items[..n], rest, Trace(a.call, a.mpi), OwnTrace(tail));
        assert items == items[..n] + rest;
        if GoodAct(l, kids, a) {
          ReplayActs(RerunAct(l, kids, a).value.0, kids, tail);
        }
      } else {
        assert [] + OwnTrace(tail) == OwnTrace(tail);
        GoodKidIs(l, kids, a);
        ReplayActs(l, kids, tail);
      }
    }
  }

  lemma {:induction false} DeliveredAppend(a: seq<Item>, b: seq<Item>, x: seq<Ideal>, y: seq<Ideal>)
    requires |a| == |x|
    ensures DeliveredAll(a + b, x + y) <==> DeliveredAll(a, x) && DeliveredAll(b, y)
  {
    if DeliveredAll(a + b, x + y) {
      forall i | 0 <= i < |a|
        ensures Delivered(a[i], x[i])
      {
        assert Delivered((a + b)[i], (x + y)[i]);
      }
      forall i | 0 <= i < |b|
        ensures Delivered(b[i], y[i])
      {
        assert Delivered((a + b)[|a| + i], (x + y)[|a| + i]);
      }
    }
  }

  lemma {:induction false} EmptyAgrees(items: seq<Item>)
    requires AgreesAll(items, [])
    ensures items == [] && DeliveredAll(items, [])
  {
  }

  lemma {:induction false} TailOfActs(kids: seq<Tree>, acts: seq<Act>)
    requires acts != [] && LegalActs(acts)
    ensures LegalAct(acts[0]) && LegalActs(acts[1..])
    ensures GoodKids(kids, acts) <==> (acts[0].Child? ==> GoodKid(kids, acts[0])) && GoodKids(kids, acts[1..])
    ensures OwnCallsPlay(acts) <==> (acts[0].Do? ==> !Reissued(acts[0].call)) && OwnCallsPlay(acts[1..])
  {
    hide GoodKid, LegalAct;
    var tail := acts[1..];
    assert forall i :: 0 <= i < |tail| ==> tail[i] == acts[i + 1];
    if GoodKids(kids, tail) && (acts[0].Child? ==> GoodKid(kids, acts[0])) {
      forall i | 0 <= i < |acts| && acts[i].Child?
        ensures GoodKid(kids, acts[i])
      {
        if i > 0 {
          assert GoodKid(kids, tail[i - 1]);
        }
      }
    }
    if OwnCallsPlay(tail) && (acts[0].Do? ==> !Reissued(acts[0].call)) {
      forall i | 0 <= i < |acts| && acts[i].Do?
        ensures !Reissued(acts[i].call)
      {
        if i > 0 {
          assert !Reissued(tail[i - 1].call);
        }
      }
    }
    if GoodKids(kids, acts) {
      forall i | 0 <= i < |tail| && tail[i].Child?
        ensures GoodKid(kids, tail[i])
      {
        assert GoodKid(kids, acts[i + 1]);
      }
    }
    if OwnCallsPlay(acts) {
      forall i | 0 <= i < |tail| && tail[i].Do?
        ensures !Reissued(tail[i].call)
      {
        assert !Reissued(acts[i + 1].call);
      }
    }
  }

  lemma {:induction false} GoodKidIs(l: Log, kids: seq<Tree>, a: Act)
    requires a.Child? && LegalAct(a) && Valid(l) && l.mode == ReplayLog
    ensures GoodAct(l, kids, a) <==> GoodKid(kids, a)
    ensures GoodAct(l, kids, a) ==> RerunAct(l, kids, a).value.0 == l
  {
    hide LegalActs;
    if Valid(Pulled(kids, a.id).0) {
      GoodChild(l, kids, a);
    }
  }

  lemma {:induction false} GoodChild(l: Log, kids: seq<Tree>, a: Act)
    requires a.Child? && LegalAct(a) && Valid(l) && l.mode == ReplayLog && Valid(Pulled(kids, a.id).0)
    ensures GoodAct(l, kids, a) <==> Good(Pulled(kids, a.id).0, Pulled(kids, a.id).1, a.body)
    ensures GoodAct(l, kids, a) ==> RerunAct(l, kids, a).value.0 == l
  {
    hide Valid;
  }

  ghost predicate DistinctRequests(l: Log)
  {
    forall i, j :: 0 <= i < j < |l.table| && l.table[j].flag != 0 ==> l.table[i].flag != l.table[j].flag
  }

  lemma {:induction false} PastTheEnd(l: Log, c: Call)
    requires Valid(l) && Remaining(l) == [] && (c.Waitall? ==> c.reqs != [])
    ensures Read(l, c) == NeedsMpi
    ensures forall n: nat, e :: Check(l, n, e) == ModeFlip
    ensures After(l, ModeFlip).mode == GenerateLog
  {
    assert l.cursor == |l.table|;
  }

  /** Only the last call that is answered may have read past the end already. */
  lemma {:induction false} FlipIsLast(l: Log, kids: seq<Tree>, acts: seq<Act>)
    requires Valid(l) && l.mode == GenerateLog && Remaining(l) == [] && LegalActs(acts) && Good(l, kids, acts)
    ensures acts == []
  {
    hide Valid, Remaining, Read;
    if acts != [] {
      GoodSplit(l, kids, acts);
      if acts[0].Do? {
        PastTheEnd(l, acts[0].call);
      }
    }
  }

  // ---- whole runs ----

  lemma FreshAlert(id: CDID)
    ensures Alert(Fresh(id), [], [])
  {
  }

  /** After the run the CD shows its acts, whatever is above it. */
  lemma {:induction false} RecordedShows(p: seq<Cd>, acts: seq<Act>)
    requires ValidPath(p) && Top(p) == Fresh(Top(p).id)
    requires LegalActs(acts) && RecordRun(p, acts).Some?
    ensures Shows(Top(RecordRun(p, acts).value), OwnTrace(acts), acts)
    ensures Alert(Top(RecordRun(p, acts).value), OwnTrace(acts), acts)
  {
    hide RecordRun, LegalActs, Shows, Alert;
    var b := |p| - 1;
    var ideals: seq<seq<Ideal>> := seq(|p|, _ => []);
    var dones: seq<seq<Act>> := seq(|p|, _ => []);
    FreshShows(Top(p).id);
    assert Alert(Top(p), [], []) by { FreshAlert(Top(p).id); }
    assert AllShow(p, b, b, ideals, dones);
    RecordShows(p, acts, b, b, ideals, dones);
    assert [] + OwnTrace(acts) == OwnTrace(acts) && [] + acts == acts;
  }

  /**
    Replay of a CD that has its log, whatever is in its packed children: rewound, the acts get the same
    answers from the logs alone exactly if each of the CD's own records holds its own data, none of its calls
    is a receive inside the CD, and each child CD is answered from the first record packed under its ID. Then
    no request address was used twice in the CD, and the first call past the acts flips back to recording.
   */
  lemma {:induction false} ShownReplays(c: Cd, acts: seq<Act>)
    requires Represents(c.log, OwnTrace(acts)) && LegalActs(acts)
    ensures
      var start := ReInit(c.log);
      && Valid(start)
      && (Good(start, c.kids, acts) <==>
            DeliveredAll(Remaining(start), OwnTrace(acts)) && OwnCallsPlay(acts) && GoodKids(c.kids, acts))
      && (Good(start, c.kids, acts) ==>
            && DistinctRequests(c.log)
            && var end := Rerun(start, c.kids, acts).value.0;
            && Remaining(end) == [] && end.mode == ReplayLog
            && forall k: Call :: (k.Waitall? ==> k.reqs != []) ==> Read(end, k) == NeedsMpi)
  {
    hide LegalActs, OwnCallsPlay, GoodKids, Rerun, Ahead, Read, Tiled;
    var start := ReInit(c.log);
    SameBooks(c.log, start, OwnTrace(acts));
    ReplayActs(start, c.kids, acts);
    if Good(start, c.kids, acts) {
      DeliveredIsComplete(start, 0, OwnTrace(acts));
      var end := Rerun(start, c.kids, acts).value.0;
      forall k: Call | k.Waitall? ==> k.reqs != []
        ensures Read(end, k) == NeedsMpi
      {
        PastTheEnd(end, k);
      }
    }
  }

  lemma {:induction false} DeliveredIsComplete(l: Log, from: nat, ideals: seq<Ideal>)
    requires Valid(l) && from <= |l.table| && DeliveredAll(Ahead(l, from), ideals)
    ensures forall i :: from <= i < |l.table| ==> l.table[i].completed
    decreases |l.table| - from
  {
    hide Tiled, LogModel.Payload;
    if from < |l.table| {
      var x, n := ItemAt(l, from), Copies(l.table[from]);
      var a, b := Repeat(x, n), Ahead(l, from + 1);
      assert (a + b)[0] == x && Delivered((a + b)[0], ideals[0]);
      forall i | 0 <= i < |b|
        ensures Delivered(b[i], ideals[n..][i])
      {
        assert (a + b)[n + i] == b[i];
      }
      DeliveredIsComplete(l, from + 1, ideals[n..]);
    }
  }

  // ---- what keeps a request open ----

  /** A call never completes an entry in a log that was packed into the caller's own child buffer. */
  lemma {:induction false} CompleteLeavesOwnKids(p: seq<Cd>, flag: nat)
    requires ValidPath(p) && Complete(p, flag).Some?
    ensures Top(Complete(p, flag).value).kids == Top(p).kids
  {
    hide Valid, Holder, FindFlag, FillPath, LogTop;
    var k := Holder(p, flag).value;
    var it := p[k].incomplete[FindFlag(p[k].incomplete, flag)];
    var q := if it.intra then p else FillPath(p, it.arrives, flag).value;
    if !it.intra {
      FillPathLeavesKids(p, it.arrives, flag);
    }
    LogTopLeavesKids(q, [], it.task);
  }

  lemma {:induction false} LogTopLeavesKids(p: seq<Cd>, data: seq<byte>, task: nat)
    requires ValidPath(p)
    ensures Top(LogTop(p, data, task)).kids == Top(p).kids
  {
    hide Valid;
  }

  lemma {:induction false} FillPathLeavesKids(p: seq<Cd>, data: seq<byte>, flag: nat)
    requires ValidPath(p) && FillPath(p, data, flag).Some?
    ensures Top(FillPath(p, data, flag).value).kids == Top(p).kids
  {
    hide Valid, Fill, FirstFlag;
    if !(FirstFlag(Top(p).log.table, flag) < |Top(p).log.table|) {
      FillAboveLeavesTop(p, |p| - 1, data, flag);
    }
  }

  lemma {:induction false} FillAboveLeavesTop(p: seq<Cd>, n: nat, data: seq<byte>, flag: nat)
    requires ValidPath(p) && n < |p| && FillAbove(p, n, data, flag).Some?
    ensures Top(FillAbove(p, n, data, flag).value) == Top(p)
    decreases n
  {
    hide Valid, FillKid, FirstKid;
    if n > 0 && p[n - 1].relaxed && FirstKid(p[n - 1].kids, flag) == |p[n - 1].kids| {
      FillAboveLeavesTop(p, n - 1, data, flag);
    }
  }

  /** Nor one in the own log of a CD above: a request waited for in a child stays open. */
  lemma {:induction false} CompleteLeavesAncestors(p: seq<Cd>, flag: nat, i: nat)
    requires ValidPath(p) && i < |p| - 1 && Complete(p, flag).Some?
    ensures Complete(p, flag).value[i].log == p[i].log
  {
    hide Valid, Holder, FindFlag, Fill, FirstFlag;
    var k := Holder(p, flag).value;
    var it := p[k].incomplete[FindFlag(p[k].incomplete, flag)];
    var data := it.arrives;
    if !it.intra && !(FirstFlag(Top(p).log.table, flag) < |Top(p).log.table|) {
      FillAboveLeavesLogs(p, |p| - 1, data, flag, i);
    }
  }

  lemma {:induction false} FillAboveLeavesLogs(p: seq<Cd>, n: nat, data: seq<byte>, flag: nat, i: nat)
    requires ValidPath(p) && n < |p| && i < |p| && FillAbove(p, n, data, flag).Some?
    ensures FillAbove(p, n, data, flag).value[i].log == p[i].log
    decreases n
  {
    hide Valid, FillKid, FirstKid;
    if n > 0 && p[n - 1].relaxed && FirstKid(p[n - 1].kids, flag) == |p[n - 1].kids| {
      FillAboveLeavesLogs(p, n - 1, data, flag, i);
    }
  }

  /** Completing a message inside the CD leaves every entry as it was and adds the completion event. */
  lemma {:induction false} IntraStaysOpen(p: seq<Cd>, flag: nat)
    requires ValidPath(p) && Complete(p, flag).Some?
    requires
      var k := Holder(p, flag).value;
      p[k].incomplete[FindFlag(p[k].incomplete, flag)].intra
    ensures
      var t, u := Top(p).log.table, Top(Complete(p, flag).value).log.table;
      |u| == |t| + 1 && u[..|t|] == t
  {
    hide Valid, Holder, FindFlag;
  }
}
