/**
  Child CDs that share an ID, as those do that a loop creates and destroys again and again: each is answered
  from the record of the first of them. When that is answer enough, told by the calls.
 */
module Siblings {
  import opened Bytes
  import opened LogModel
  import opened PackFormat
  import opened Replay
  import opened CdLogs
  import opened Wrappers
  import opened WholeRun
  import opened WholeReplay
  import opened Recital

  // ---- the same calls ----

  /** The same program text: the same calls and children, whatever MPI answered. */
  predicate SameCalls(x: seq<Act>, y: seq<Act>)
    decreases x
  {
    |x| == |y| && forall i :: 0 <= i < |x| ==> SameAct(x[i], y[i])
  }

  predicate SameAct(a: Act, b: Act)
    decreases a
  {
    match a
    case Do(c, _) => b.Do? && b.call == c
    case Child(id, body, _) => b.Child? && SameCD(id, b.id) && SameCalls(body, b.body)
  }

  lemma {:induction false} SamePull(kids: seq<Tree>, a: CDID, b: CDID)
    requires SameCD(a, b)
    ensures Pulled(kids, a) == Pulled(kids, b)
  {
    var j, k := FirstTree(kids, a), FirstTree(kids, b);
    assert forall i :: 0 <= i < |kids| ==> (SameCD(kids[i].id, a) <==> SameCD(kids[i].id, b));
    hide FirstTree;
    assert j == k;
  }

  /** Replay looks at the calls only. */
  lemma {:induction false} RerunSame(l: Log, kids: seq<Tree>, x: seq<Act>, y: seq<Act>)
    requires Valid(l) && LegalActs(x) && LegalActs(y) && SameCalls(x, y)
    ensures Rerun(l, kids, x) == Rerun(l, kids, y)
    decreases x, 0
  {
    hide Valid, RerunAct, LegalAct, SameAct;
    if x != [] {
      LegalSplit(x);
      LegalSplit(y);
      assert SameAct(x[0], y[0]);
      RerunActSame(l, kids, x[0], y[0]);
      var s := RerunAct(l, kids, x[0]);
      if s.Some? {
        RerunSame(s.value.0, kids, x[1..], y[1..]);
      }
    }
  }

  lemma {:induction false} RerunActSame(l: Log, kids: seq<Tree>, a: Act, b: Act)
    requires Valid(l) && LegalAct(a) && LegalAct(b) && SameAct(a, b)
    ensures RerunAct(l, kids, a) == RerunAct(l, kids, b)
    decreases a, 1
  {
    hide LegalActs, SameCalls, Rerun, SameCD;
    if a.Child? {
      SamePull(kids, a.id, b.id);
      var start := Pulled(kids, a.id);
      if Valid(start.0) {
        RerunSame(start.0, start.1, a.body, b.body);
      }
    }
  }

  /** So if the one is answered as recorded, the other is exactly if it got the same answers. */
  lemma {:induction false} GoodSame(l: Log, kids: seq<Tree>, x: seq<Act>, y: seq<Act>)
    requires Valid(l) && LegalActs(x) && LegalActs(y) && SameCalls(x, y) && Good(l, kids, y)
    ensures Good(l, kids, x) <==> Outputs(x) == Outputs(y)
  {
    hide Valid, LegalActs, SameCalls, Rerun, Outputs;
    RerunSame(l, kids, x, y);
  }

  /** A child that shares its ID with one that is answered as recorded gets that one's answers, and no error. */
  lemma {:induction false} NamesakeAnswers(l: Log, kids: seq<Tree>, a: Act, b: Act)
    requires Valid(l) && l.mode == ReplayLog && LegalAct(a) && LegalAct(b) && SameAct(a, b)
    requires b.Child? && GoodKid(kids, b)
    ensures a.Child? && RerunAct(l, kids, a) == Some((l, Outputs(b.body)))
  {
    hide Valid, LegalActs, SameCalls, Rerun, Outputs;
    RerunActSame(l, kids, a, b);
    GoodKidIs(l, kids, b);
  }

  /** Also if it made only the first of those calls. */
  lemma {:induction false} PrefixAnswers(l: Log, kids: seq<Tree>, x: seq<Act>, y: seq<Act>)
    requires Valid(l) && LegalActs(x) && LegalActs(y) && Good(l, kids, y)
    requires |x| <= |y| && SameCalls(x, y[..|x|])
    ensures Good(l, kids, x) <==> Outputs(x) == Outputs(y[..|x|])
  {
    hide Valid, LegalActs, SameCalls, Good, Outputs;
    var u, v := y[..|x|], y[|x|..];
    assert y == u + v;
    LegalParts(u, v);
    GoodThen(l, kids, u, v);
    GoodSame(l, kids, x, u);
  }

  // ---- what the records have to hold ----

  predicate NoneReissued(acts: seq<Act>)
    decreases acts
  {
    OwnCallsPlay(acts) && forall i :: 0 <= i < |acts| && acts[i].Child? ==> NoneReissued(acts[i].body)
  }

  predicate Namesakes(a: Act, b: Act)
  {
    a.Child? && b.Child? && SameCD(a.id, b.id)
  }

  /** Each request has its own data in its record, in the CD and in the first child under each ID. */
  ghost predicate Perfect(l: Log, kids: seq<Tree>, acts: seq<Act>)
    requires Valid(l)
    decreases acts
  {
    && DeliveredAll(Remaining(l), OwnTrace(acts))
    && forall i :: 0 <= i < |acts| && acts[i].Child? ==> KidPerfect(kids, acts, i)
  }

  ghost predicate KidPerfect(kids: seq<Tree>, acts: seq<Act>, i: nat)
    requires i < |acts| && acts[i].Child?
    decreases acts, 0
  {
    var j := FirstLogged(acts, acts[i].id);
    var start := Pulled(kids, acts[i].id);
    j < |acts| ==> Valid(start.0) && Perfect(start.0, start.1, acts[j].body)
  }

  /**
    `x` gets its answers from the perfect record of `y`: the record says what `x` would have logged itself, and
    the same holds for each child of `x` and the first child of `y` under its ID; where there is none, the child
    of `x` has nothing to ask.
   */
  ghost predicate Recites(x: seq<Act>, y: seq<Act>)
    decreases x
  {
    && OwnCallsPlay(x) && Follows(Text(OwnTrace(y)), x)
    && forall i :: 0 <= i < |x| && x[i].Child? ==> KidRecites(x[i], y)
  }

  ghost predicate KidRecites(a: Act, y: seq<Act>)
    requires a.Child?
    decreases a
  {
    var j := FirstLogged(y, a.id);
    if j == |y| then !Logs(a.body) else Recites(a.body, y[j].body)
  }

  lemma {:induction false} SameFirst(acts: seq<Act>, a: CDID, b: CDID)
    requires SameCD(a, b)
    ensures FirstLogged(acts, a) == FirstLogged(acts, b)
  {
    hide Logs;
    assert forall i :: 0 <= i < |acts| ==> (LoggedUnder(acts[i], a) <==> LoggedUnder(acts[i], b));
    hide FirstLogged;
  }

  lemma FirstIsChild(acts: seq<Act>, id: CDID)
    requires FirstLogged(acts, id) < |acts|
    ensures acts[FirstLogged(acts, id)].Child? && SameCD(acts[FirstLogged(acts, id)].id, id)
  {
  }

  // ---- the exact condition ----

  /** The record found under an ID, if all that can be found are perfect. */
  lemma {:induction false} FoundPerfect(l: Log, kids: seq<Tree>, acts: seq<Act>, id: CDID)
    requires Valid(l) && MatchKids(kids, acts) && LegalActs(acts) && Perfect(l, kids, acts)
    ensures
      var j, start := FirstLogged(acts, id), Pulled(kids, id);
      && Valid(start.0) && start.0.mode == ReplayLog
      && (j == |acts| ==> start == (NOTHING, []))
      && (j < |acts| ==>
            && LegalActs(acts[j].body) && MatchKids(start.1, acts[j].body)
            && Perfect(start.0, start.1, acts[j].body))
  {
    hide MatchKids, Logs, FirstTree, FirstLogged, LegalAct, SameCD, Ahead, Tiled, OwnTrace;
    var j := FirstLogged(acts, id);
    FoundKid(kids, acts, id);
    if j == |acts| {
      NothingAhead();
    } else {
      FirstIsChild(acts, id);
      SameFirst(acts, acts[j].id, id);
      SamePull(kids, acts[j].id, id);
      assert KidPerfect(kids, acts, j) && LegalAct(acts[j]);
      LegalBody(acts[j]);
      TreeShape(kids[FirstTree(kids, id)], acts[j].body);
    }
  }

  /**
    Any acts `x` on the perfect record of any acts `y`: the answers are the recorded ones exactly if `x` recites
    `y`, and then as much of the record is left as `x` did not use.
   */
  lemma {:induction false} RecitesExactly(l: Log, kids: seq<Tree>, x: seq<Act>, y: seq<Act>)
    requires Valid(l) && l.mode == ReplayLog && LegalActs(x) && LegalActs(y)
    requires MatchKids(kids, y) && Perfect(l, kids, y)
    ensures Good(l, kids, x) <==> Recites(x, y)
    ensures Good(l, kids, x) ==> ReadsOn(l, Rerun(l, kids, x).value.0, Text(OwnTrace(y)), |OwnTrace(x)|)
    decreases x, 1
  {
    hide Valid, MatchKids, LegalAct, GoodKid, KidRecites, OwnTrace, Follows, Text, ReadsOn, Rerun, Outputs;
    DeliveredTells(l, OwnTrace(y));
    TextReplays(l, Text(OwnTrace(y)), kids, x);
    forall i | 0 <= i < |x| && x[i].Child?
      ensures LegalAct(x[i]) && (GoodKid(kids, x[i]) <==> KidRecites(x[i], y))
    {
      assert LegalAct(x[i]);
      KidRecitesExactly(l, kids, x[i], y);
    }
  }

  lemma {:induction false} KidRecitesExactly(l: Log, kids: seq<Tree>, a: Act, y: seq<Act>)
    requires a.Child? && LegalAct(a) && LegalActs(y) && Valid(l) && MatchKids(kids, y) && Perfect(l, kids, y)
    ensures GoodKid(kids, a) <==> KidRecites(a, y)
    decreases a, 0
  {
    hide Valid, MatchKids, LegalActs, Perfect, Good, Recites, FirstLogged, Logs, Pulled;
    LegalBody(a);
    FoundPerfect(l, kids, y, a.id);
    var j, start := FirstLogged(y, a.id), Pulled(kids, a.id);
    if j == |y| {
      NothingReplays(a.body);
    } else {
      RecitesExactly(start.0, start.1, a.body, y[j].body);
    }
  }

  /**
    Any run, whatever its children are called: its acts are answered as recorded exactly if the records that
    can be found hold what they should, and each child recites the first one under its ID.
   */
  lemma {:induction false} PerfectReplays(l: Log, kids: seq<Tree>, acts: seq<Act>)
    requires Valid(l) && l.mode == ReplayLog && LegalActs(acts)
    requires AgreesAll(Remaining(l), OwnTrace(acts)) && MatchKids(kids, acts)
    ensures Good(l, kids, acts) <==> Perfect(l, kids, acts) && Recites(acts, acts)
    decreases acts
  {
    hide Valid, Remaining, MatchKids, LegalAct, AgreesAll, DeliveredAll, Good, GoodKid, FirstLogged, Recites, OwnTrace;
    ReplayActs(l, kids, acts);
    if Good(l, kids, acts) {
      forall i | 0 <= i < |acts| && acts[i].Child?
        ensures KidPerfect(kids, acts, i)
      {
        GoodIsPerfect(kids, acts, i);
      }
    }
    if Perfect(l, kids, acts) {
      RecitesExactly(l, kids, acts, acts);
    }
  }

  lemma {:induction false} GoodIsPerfect(kids: seq<Tree>, acts: seq<Act>, i: nat)
    requires MatchKids(kids, acts) && LegalActs(acts) && GoodKids(kids, acts) && i < |acts| && acts[i].Child?
    ensures KidPerfect(kids, acts, i)
    decreases acts, 0
  {
    hide MatchKids, Logs, FirstTree, FirstLogged, LegalAct, SameCD, Ahead, Tiled, OwnTrace, Good, Recites;
    var id := acts[i].id;
    var j := FirstLogged(acts, id);
    FoundKid(kids, acts, id);
    if j < |acts| {
      FirstIsChild(acts, id);
      SamePull(kids, acts[j].id, id);
      assert LegalAct(acts[j]) && GoodKid(kids, acts[j]);
      LegalBody(acts[j]);
      TreeShape(kids[FirstTree(kids, id)], acts[j].body);
      var start := Pulled(kids, id);
      PerfectReplays(start.0, start.1, acts[j].body);
    }
  }

  // ---- different IDs ----

  /** Siblings with different IDs, at every level. */
  ghost predicate Distinct(acts: seq<Act>)
    decreases acts
  {
    && (forall i, j :: 0 <= i < |acts| && 0 <= j < |acts| && i != j ==> !Namesakes(acts[i], acts[j]))
    && (forall i :: 0 <= i < |acts| && acts[i].Child? ==> Distinct(acts[i].body))
  }

  /** Then a run recites itself, unless a receive stays inside its CD. */
  lemma {:induction false} DistinctRecites(acts: seq<Act>)
    requires Distinct(acts)
    ensures NoneReissued(acts) ==> Recites(acts, acts)
    decreases acts
  {
    hide FirstLogged, Logs, Follows;
    if NoneReissued(acts) {
      assert Follows(Text(OwnTrace(acts)), acts) by { FollowsItself(acts); }
      forall i | 0 <= i < |acts| && acts[i].Child?
        ensures KidRecites(acts[i], acts)
      {
        var j := FirstLogged(acts, acts[i].id);
        DistinctRecites(acts[i].body);
        if j < |acts| {
          FirstIsChild(acts, acts[i].id);
          assert Namesakes(acts[j], acts[i]);
        } else {
          assert SameCD(acts[i].id, acts[i].id) && !LoggedUnder(acts[i], acts[i].id);
        }
      }
    }
  }

  lemma FollowsItself(acts: seq<Act>)
    ensures Follows(Text(OwnTrace(acts)), acts)
  {
  }

  // ---- different calls ----

  /** A Test on the record of a receive that got a one: it is told "completed", and nobody misses the event. */
  lemma {:induction false} EventNotMissed(f: nat, m: Mpi, n: Mpi)
    requires m.flag && n.data == Int(1)
    ensures Recites([Do(Test(f), m)], [Do(Recv(INT), n)])
  {
    hide Int;
    var x, y := Do(Test(f), m), Do(Recv(INT), n);
    OneTrace(x);
    OneTrace(y);
    var w, text := [Int(1), []], [Int(1)];
    assert Text(OwnTrace([x])) == w && Text(OwnTrace([y])) == text;
    assert text <= w;
  }
}
