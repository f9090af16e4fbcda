/**
  Recording whole runs: a CD's calls, with its child CDs nested among them to any depth, under arbitrary
  answers from MPI. What is in the logs afterwards is told call by call.
 */
module WholeRun {
  import opened Bytes
  import opened LogModel
  import opened PackFormat
  import opened Replay
  import opened CdLogs
  import opened Wrappers

  datatype Act = Do(call: Call, mpi: Mpi) | Child(id: CDID, body: seq<Act>, alloc: Alloc)

  /** MPI's answers are possible ones. */
  ghost predicate LegalActs(acts: seq<Act>)
  {
    forall i :: 0 <= i < |acts| ==> LegalAct(acts[i])
  }

  ghost predicate LegalAct(a: Act)
  {
    match a
    case Do(c, m) => Legal(c, m)
    case Child(_, body, _) => LegalActs(body)
  }

  // ---- recording ----

  function Fresh(id: CDID): Cd
  {
    Cd(id, true, EMPTY, [], [])
  }

  ghost function RecordRun(p: seq<Cd>, acts: seq<Act>): (r: Option<seq<Cd>>)
    requires ValidPath(p) && LegalActs(acts)
    ensures r.Some? ==> ValidPath(r.value) && SameCds(p, r.value)
    decreases acts
  {
    if acts == [] then Some(p)
    else
      assert LegalAct(acts[0]);
      var q :- RecordAct(p, acts[0]);
      RecordRun(q, acts[1..])
  }

  /** A call of the current CD, or a child CD from its Begin to its Complete. */
  ghost function RecordAct(p: seq<Cd>, a: Act): (r: Option<seq<Cd>>)
    requires ValidPath(p) && LegalAct(a)
    ensures r.Some? ==> ValidPath(r.value) && SameCds(p, r.value)
    decreases a
  {
    match a
    case Do(c, m) => Gen(p, c, m)
    case Child(id, body, alloc) =>
      FreshValid(p, id);
      var q :- RecordRun(p + [Fresh(id)], body);
      HandoverValid(q, alloc);
      Some(Handover(q, alloc))
  }

  lemma FreshValid(p: seq<Cd>, id: CDID)
    requires ValidPath(p)
    ensures ValidPath(p + [Fresh(id)])
  {
    assert Valid(EMPTY);
  }

  // ---- what the run should have left ----

  function ActTrace(a: Act): seq<Ideal>
  {
    if a.Do? then Trace(a.call, a.mpi) else []
  }

  function OwnTrace(acts: seq<Act>): seq<Ideal>
  {
    if acts == [] then [] else ActTrace(acts[0]) + OwnTrace(acts[1..])
  }

  /** Whether a CD with these acts has anything to push to its parent. */
  predicate Logs(acts: seq<Act>)
    decreases acts
  {
    acts != [] && (Logs(acts[..|acts| - 1])
                   || match acts[|acts| - 1] case Do(_, _) => true case Child(_, body, _) => Logs(body))
  }

  /** Merged entries all hold the answer "not yet". */
  ghost predicate ZeroRepeats(l: Log)
    requires Valid(l)
  {
    forall i :: 0 <= i < |l.table| && Matches(l.table[i], INT, true, 0) ==> LogModel.Payload(l, i) == Int(0)
  }

  /** The second entry of a request address stays open: completions only ever find the first. */
  ghost predicate FirstsOnly(l: Log)
  {
    forall i, j :: 0 <= i < j < |l.table| && l.table[i].flag == l.table[j].flag && l.table[j].flag != 0
      ==> !l.table[j].completed
  }

  ghost predicate Represents(l: Log, ideals: seq<Ideal>)
  {
    Valid(l) && Rewound(l) && ZeroRepeats(l) && FirstsOnly(l) && AgreesAll(Ahead(l, 0), ideals)
  }

  ghost predicate MatchTree(t: Tree, acts: seq<Act>)
    decreases acts, 1
  {
    Represents(LogOfTree(t), OwnTrace(acts)) && MatchKids(t.kids, acts)
  }

  /** The packed children are those child CDs that logged something, in order. */
  ghost predicate MatchKids(kids: seq<Tree>, acts: seq<Act>)
    decreases acts, 0
  {
    if acts == [] then kids == []
    else
      var n := |acts| - 1;
      match acts[n]
      case Do(_, _) => MatchKids(kids, acts[..n])
      case Child(id, body, _) =>
        if Logs(body) then
          && kids != []
          && var k := |kids| - 1;
          kids[k].id == id && MatchTree(kids[k], body) && MatchKids(kids[..k], acts[..n])
        else MatchKids(kids, acts[..n])
  }

  /** A CD whose own records are `ideals` and whose children so far are those in `done`. */
  ghost predicate Shows(c: Cd, ideals: seq<Ideal>, done: seq<Act>)
  {
    && ValidCd(c) && c.relaxed
    && Represents(c.log, ideals)
    && MatchKids(c.kids, done)
    && (c.log.generated ==> ideals != [] || Logs(done))
  }

  /** Whatever it or a child of it logged is marked as new. */
  ghost predicate Alert(c: Cd, ideals: seq<Ideal>, done: seq<Act>)
  {
    ideals != [] || Logs(done) ==> c.log.generated
  }

  /** From level `lo` on the CDs show what they did; from level `b` on they started with an empty log. */
  ghost predicate AllShow(p: seq<Cd>, lo: nat, b: nat, ideals: seq<seq<Ideal>>, dones: seq<seq<Act>>)
  {
    && ValidPath(p) && lo < |p| == |ideals| == |dones|
    && (forall i :: lo <= i < |p| ==> Shows(p[i], ideals[i], dones[i]))
    && (forall i :: lo <= i < |p| && b <= i ==> Alert(p[i], ideals[i], dones[i]))
  }

  // ---- recording keeps the books ----

  lemma {:induction false} AgreesAppend(items: seq<Item>, ideals: seq<Ideal>, x: Item, i: Ideal)
    requires AgreesAll(items, ideals) && Agrees(x, i)
    ensures AgreesAll(items + [x], ideals + [i])
  {
  }

  /** A finished record: appended, or merged into an entry that says the same. */
  lemma {:induction false} LogDataRepresents(l: Log, ideals: seq<Ideal>, data: seq<byte>, task: nat, isrepeated: bool)
    requires Represents(l, ideals)
    requires isrepeated ==> l.table != [] && data == Int(0)
    ensures Represents(LogData(l, data, task, true, 0, isrepeated, data), ideals + [Fixed(data)])
    ensures LogData(l, data, task, true, 0, isrepeated, data).table != []
  {
    hide Tiled, Ahead, Int;
    var r := LogData(l, data, task, true, 0, isrepeated, data);
    LogDataExtendsReplay(l, data, task, true, 0, isrepeated, data);
    LogDataAppends(l, data, task, true, 0, isrepeated, data);
    if isrepeated && FoundRepeated(l, |data|, true, 0) {
      assert LogModel.Payload(l, |l.table| - 1) == Int(0);
    }
    AgreesAppend(Ahead(l, 0), ideals, Logged(l, data, true, 0, isrepeated), Fixed(data));
    forall i | 0 <= i < |r.table| && Matches(r.table[i], INT, true, 0)
      ensures LogModel.Payload(r, i) == Int(0)
    {
      assert RecordAt(r, i) == View(r)[i];
      if i < |l.table| {
        assert RecordAt(l, i) == View(l)[i];
      }
    }
  }

  lemma {:induction false} PostRepresents(l: Log, ideals: seq<Ideal>, junk: seq<byte>, task: nat, flag: nat,
                                          want: seq<byte>)
    requires Represents(l, ideals) && |junk| == |want|
    ensures Represents(LogData(l, junk, task, false, flag, false, junk), ideals + [Slot(flag, want)])
    ensures LogData(l, junk, task, false, flag, false, junk).table != []
  {
    hide Tiled, Ahead, Int;
    var r := LogData(l, junk, task, false, flag, false, junk);
    LogDataExtendsReplay(l, junk, task, false, flag, false, junk);
    LogDataAppends(l, junk, task, false, flag, false, junk);
    AgreesAppend(Ahead(l, 0), ideals, Hole(flag, |junk|), Slot(flag, want));
    forall i | 0 <= i < |r.table| && Matches(r.table[i], INT, true, 0)
      ensures LogModel.Payload(r, i) == Int(0)
    {
      assert RecordAt(r, i) == View(r)[i];
      assert RecordAt(l, i) == View(l)[i];
    }
  }

  function LengthOf(x: Item): nat
  {
    match x case Data(_, p) => |p| case Hole(_, n) => n
  }

  /** Filling a slot changes only items with that flag, and those to the data. */
  ghost predicate Filled(a: seq<Item>, b: seq<Item>, data: seq<byte>, flag: nat)
  {
    |a| == |b| && forall i :: 0 <= i < |a| ==>
                    b[i] == a[i] || (a[i].flag == flag && LengthOf(a[i]) == |data| && b[i] == Data(flag, data))
  }

  lemma {:induction false} ItemFilled(l: Log, data: seq<byte>, flag: nat, i: nat)
    requires Valid(l) && LengthAgrees(l.table, flag, |data|) && i < |l.table|
    requires Valid(ProbeAndLog(l, data, flag))
    requires FirstFlag(l.table, flag) < |l.table|
    ensures
      var r := ProbeAndLog(l, data, flag);
      && |r.table| == |l.table| && Copies(r.table[i]) == Copies(l.table[i])
      && Filled([ItemAt(l, i)], [ItemAt(r, i)], data, flag)
  {
    hide Tiled, LogModel.Payload, FirstFlag;
    ProbeAndLogPayload(l, data, flag, i);
  }

  lemma {:induction false} FilledSum(a: seq<Item>, b: seq<Item>, x: seq<Item>, y: seq<Item>, data: seq<byte>, flag: nat)
    requires Filled(a, x, data, flag) && Filled(b, y, data, flag)
    ensures Filled(a + b, x + y, data, flag)
  {
  }

  lemma {:induction false} FilledCopies(x: Item, y: Item, n: nat, data: seq<byte>, flag: nat)
    requires Filled([x], [y], data, flag)
    ensures Filled(Repeat(x, n), Repeat(y, n), data, flag)
  {
    assert [x][0] == x && [y][0] == y;
  }

  lemma {:induction false} AheadFilled(l: Log, data: seq<byte>, flag: nat, from: nat)
    requires Valid(l) && LengthAgrees(l.table, flag, |data|) && from <= |l.table|
    requires Valid(ProbeAndLog(l, data, flag))
    requires FirstFlag(l.table, flag) < |l.table|
    ensures Filled(Ahead(l, from), Ahead(ProbeAndLog(l, data, flag), from), data, flag)
    decreases |l.table| - from
  {
    hide Tiled, ItemAt, FirstFlag, LengthAgrees, Filled, Repeat;
    var r := ProbeAndLog(l, data, flag);
    if from < |l.table| {
      AheadFilled(l, data, flag, from + 1);
      ItemFilled(l, data, flag, from);
      var n := Copies(l.table[from]);
      FilledCopies(ItemAt(l, from), ItemAt(r, from), n, data, flag);
      FilledSum(Repeat(ItemAt(l, from), n), Ahead(l, from + 1),
                Repeat(ItemAt(r, from), n), Ahead(r, from + 1), data, flag);
    } else {
      NothingFilled(data, flag);
    }
  }

  lemma NothingFilled(data: seq<byte>, flag: nat)
    ensures Filled([], [], data, flag)
  {
  }

  /** A completion that delivers the request's payload keeps every record true. */
  lemma {:induction false} FillRepresents(l: Log, ideals: seq<Ideal>, flag: nat, data: seq<byte>)
    requires Represents(l, ideals) && flag != 0
    requires Fill(l, data, flag).Some?
    ensures
      var r := Fill(l, data, flag).value;
      && Represents(r, ideals) && r.generated == l.generated && (r.table == [] <==> l.table == [])
  {
    hide Tiled, Ahead, FirstFlag, LogModel.Payload;
    var r := ProbeAndLog(l, data, flag);
    var k := FirstFlag(l.table, flag);
    ProbeAndLogFillsOne(l, data, flag);
    if k < |l.table| {
      AheadFilled(l, data, flag, 0);
      var a, b := Ahead(l, 0), Ahead(r, 0);
      forall i | 0 <= i < |b|
        ensures Agrees(b[i], ideals[i])
      {
        assert Agrees(a[i], ideals[i]);
      }
      forall i | 0 <= i < |r.table| && Matches(r.table[i], INT, true, 0)
        ensures LogModel.Payload(r, i) == Int(0)
      {
        ProbeAndLogPayload(l, data, flag, i);
      }
    }
  }

  function WithLog(t: Tree, l: Log): Tree
  {
    t.(table := l.table, queue := l.queue)
  }

  lemma {:induction false} FillMatchKids(kids: seq<Tree>, acts: seq<Act>, k: nat, flag: nat, data: seq<byte>)
    requires MatchKids(kids, acts) && k < |kids| && flag != 0 && Valid(LogOfTree(kids[k]))
    requires Fill(LogOfTree(kids[k]), data, flag).Some?
    ensures
      var l := Fill(LogOfTree(kids[k]), data, flag).value;
      MatchKids(kids[k := WithLog(kids[k], l)], acts)
    decreases |acts|
  {
    hide Valid, Represents, Fill, Logs, OwnTrace;
    var l := Fill(LogOfTree(kids[k]), data, flag).value;
    var t := WithLog(kids[k], l);
    var m := |acts| - 1;
    if acts[m].Child? && Logs(acts[m].body) {
      var last := |kids| - 1;
      if k == last {
        LogOfFilled(kids[k], flag, data);
        FillRepresents(LogOfTree(kids[k]), OwnTrace(acts[m].body), flag, data);
        assert kids[k := t][..last] == kids[..last];
      } else {
        FillMatchKids(kids[..last], acts[..m], k, flag, data);
        assert kids[k := t][..last] == kids[..last][k := t];
      }
    } else {
      FillMatchKids(kids, acts[..m], k, flag, data);
    }
  }

  lemma {:induction false} LogOfFilled(t: Tree, flag: nat, data: seq<byte>)
    requires Valid(LogOfTree(t)) && Fill(LogOfTree(t), data, flag).Some?
    ensures
      var l := Fill(LogOfTree(t), data, flag).value;
      LogOfTree(WithLog(t, l)) == l
  {
  }

  lemma {:induction false} FillAboveShows(p: seq<Cd>, k: nat, flag: nat, data: seq<byte>, lo: nat, b: nat,
                                          ideals: seq<seq<Ideal>>,
                                          dones: seq<seq<Act>>)
    requires AllShow(p, lo, b, ideals, dones) && flag != 0 && k < |p|
    requires FillAbove(p, k, data, flag).Some?
    ensures AllShow(FillAbove(p, k, data, flag).value, lo, b, ideals, dones)
    decreases k
  {
    hide Valid, Represents, MatchKids, Logs, FirstKid, Fill, FirstFlag;
    if k > 0 && p[k - 1].relaxed {
      var kids := p[k - 1].kids;
      var j := FirstKid(kids, flag);
      if j == |kids| {
        FillAboveShows(p, k - 1, flag, data, lo, b, ideals, dones);
      } else if lo <= k - 1 {
        FillMatchKids(kids, dones[k - 1], j, flag, data);
      }
    }
  }

  lemma {:induction false} FillPathShows(p: seq<Cd>, flag: nat, data: seq<byte>, lo: nat, b: nat,
                                         ideals: seq<seq<Ideal>>,
                                         dones: seq<seq<Act>>)
    requires AllShow(p, lo, b, ideals, dones) && flag != 0
    requires FillPath(p, data, flag).Some?
    ensures AllShow(FillPath(p, data, flag).value, lo, b, ideals, dones)
  {
    hide Valid, Represents, MatchKids, Logs, Fill, FirstFlag, FillAbove;
    var c := Top(p);
    if FirstFlag(c.log.table, flag) < |c.log.table| {
      FillRepresents(c.log, ideals[|p| - 1], flag, data);
    } else {
      FillAboveShows(p, |p| - 1, flag, data, lo, b, ideals, dones);
    }
  }

  lemma {:induction false} LogTopShows(p: seq<Cd>, data: seq<byte>, task: nat, lo: nat, b: nat,
                                       ideals: seq<seq<Ideal>>, dones: seq<seq<Act>>)
    requires AllShow(p, lo, b, ideals, dones)
    ensures AllShow(LogTop(p, data, task), lo, b, Extend(ideals, [Fixed(data)]), dones)
  {
    hide Valid, MatchKids, Logs, Ahead, Rewound, ZeroRepeats;
    LogDataRepresents(Top(p).log, ideals[|p| - 1], data, task, false);
  }

  lemma {:induction false} LogAgainShows(p: seq<Cd>, lo: nat, b: nat, ideals: seq<seq<Ideal>>, dones: seq<seq<Act>>)
    requires AllShow(p, lo, b, ideals, dones) && LogAgain(p, Int(0), 0).Some?
    ensures AllShow(LogAgain(p, Int(0), 0).value, lo, b, Extend(ideals, [Fixed(Int(0))]), dones)
  {
    hide Valid, MatchKids, Logs, Int, Ahead, Rewound, ZeroRepeats;
    var c, t := Top(p), |p| - 1;
    LogDataRepresents(c.log, ideals[t], Int(0), 0, true);
    TableNonEmpty(c.log, ideals[t]);
  }

  lemma {:induction false} TableNonEmpty(l: Log, ideals: seq<Ideal>)
    requires Represents(l, ideals)
    ensures l.table == [] <==> ideals == []
  {
    if l.table != [] {
      assert Copies(l.table[0]) > 0;
    }
  }

  lemma {:induction false} PostShows(p: seq<Cd>, it: Incomplete, junk: seq<byte>, lo: nat, b: nat,
                                     ideals: seq<seq<Ideal>>, dones: seq<seq<Act>>)
    requires AllShow(p, lo, b, ideals, dones) && it.flag != 0 && |junk| == |it.arrives|
    ensures AllShow(Post(p, it, junk), lo, b, Extend(ideals, [Slot(it.flag, it.arrives)]), dones)
  {
    hide Valid, MatchKids, Logs, Ahead, Rewound, ZeroRepeats;
    var c, t := Top(p), |p| - 1;
    PostRepresents(c.log, ideals[t], junk, it.task, it.flag, it.arrives);
  }

  lemma {:induction false} CompleteShows(p: seq<Cd>, flag: nat, lo: nat, b: nat, ideals: seq<seq<Ideal>>,
                                         dones: seq<seq<Act>>)
    requires AllShow(p, lo, b, ideals, dones) && Complete(p, flag).Some?
    ensures AllShow(Complete(p, flag).value, lo, b, Extend(ideals, [Fixed([])]), dones)
  {
    hide Valid, MatchKids, Logs, Represents, Holder, FindFlag, FillPath, LogTop;
    var k := Holder(p, flag).value;
    var j := FindFlag(p[k].incomplete, flag);
    var it := p[k].incomplete[j];
    assert ValidCd(p[k]);
    var q := if it.intra then p else FillPath(p, it.arrives, flag).value;
    if !it.intra {
      FillPathShows(p, flag, it.arrives, lo, b, ideals, dones);
    }
    LogTopShows(q, [], it.task, lo, b, ideals, dones);
  }

  lemma {:induction false} CompleteAllShows(p: seq<Cd>, flags: seq<nat>, lo: nat, b: nat, ideals: seq<seq<Ideal>>,
                                            dones: seq<seq<Act>>)
    requires AllShow(p, lo, b, ideals, dones) && CompleteAll(p, flags).Some?
    ensures AllShow(CompleteAll(p, flags).value, lo, b, Extend(ideals, Events(|flags|)), dones)
    decreases |flags|
  {
    hide Complete, Shows;
    if flags == [] {
      assert ideals[|p| - 1] + Events(0) == ideals[|p| - 1];
    } else {
      CompleteShows(p, flags[0], lo, b, ideals, dones);
      CompleteAllShows(Complete(p, flags[0]).value, flags[1..], lo, b, Extend(ideals, [Fixed([])]), dones);
      ExtendTwice(ideals, [Fixed([])], Events(|flags| - 1));
      assert [Fixed([])] + Events(|flags| - 1) == Events(|flags|);
    }
  }

  /** `ideals` with more records behind the current CD's. */
  function Extend(ideals: seq<seq<Ideal>>, more: seq<Ideal>): seq<seq<Ideal>>
    requires ideals != []
  {
    ideals[|ideals| - 1 := ideals[|ideals| - 1] + more]
  }

  lemma ExtendTwice(ideals: seq<seq<Ideal>>, x: seq<Ideal>, y: seq<Ideal>)
    requires ideals != []
    ensures Extend(Extend(ideals, x), y) == Extend(ideals, x + y)
  {
    var t := |ideals| - 1;
    assert ideals[t] + x + y == ideals[t] + (x + y);
  }

  lemma {:induction false} GenTestShows(p: seq<Cd>, fs: seq<nat>, m: Mpi, lo: nat, b: nat, ideals: seq<seq<Ideal>>,
                                        dones: seq<seq<Act>>)
    requires AllShow(p, lo, b, ideals, dones) && GenTest(p, fs, m).Some?
    ensures AllShow(GenTest(p, fs, m).value, lo, b,
                    Extend(ideals, if m.flag then [Fixed(Int(1))] + Events(|fs|) else [Fixed(Int(0))]), dones)
  {
    hide Shows, LogTop, Int, CompleteAll, LogAgain;
    if m.flag {
      LogTopShows(p, Int(1), 0, lo, b, ideals, dones);
      CompleteAllShows(LogTop(p, Int(1), 0), fs, lo, b, Extend(ideals, [Fixed(Int(1))]), dones);
      ExtendTwice(ideals, [Fixed(Int(1))], Events(|fs|));
    } else {
      LogAgainShows(p, lo, b, ideals, dones);
    }
  }

  lemma {:induction false} LogTwoShows(p: seq<Cd>, d: seq<byte>, e: seq<byte>, task: nat, lo: nat, b: nat,
                                       ideals: seq<seq<Ideal>>, dones: seq<seq<Act>>)
    requires AllShow(p, lo, b, ideals, dones)
    ensures AllShow(LogTop(LogTop(p, d, task), e, task), lo, b, Extend(ideals, [Fixed(d), Fixed(e)]), dones)
  {
    hide Shows, LogTop;
    LogTopShows(p, d, task, lo, b, ideals, dones);
    LogTopShows(LogTop(p, d, task), e, task, lo, b, Extend(ideals, [Fixed(d)]), dones);
    ExtendTwice(ideals, [Fixed(d)], [Fixed(e)]);
    assert [Fixed(d)] + [Fixed(e)] == [Fixed(d), Fixed(e)];
  }

  lemma {:induction false} GenTestanyShows(p: seq<Cd>, fs: seq<nat>, m: Mpi, lo: nat, b: nat, ideals: seq<seq<Ideal>>,
                                           dones: seq<seq<Act>>)
    requires AllShow(p, lo, b, ideals, dones) && Legal(Testany(fs), m) && Gen(p, Testany(fs), m).Some?
    ensures AllShow(Gen(p, Testany(fs), m).value, lo, b, Extend(ideals, Trace(Testany(fs), m)), dones)
  {
    hide Shows, LogTop, Int, Complete, LogAgain;
    if m.flag {
      var x := [Fixed(Int(1)), Fixed(Int(m.index))];
      LogTwoShows(p, Int(1), Int(m.index), 0, lo, b, ideals, dones);
      CompleteShows(LogTop(LogTop(p, Int(1), 0), Int(m.index), 0), fs[m.index], lo, b, Extend(ideals, x), dones);
      ExtendTwice(ideals, x, [Fixed([])]);
      assert x + [Fixed([])] == Trace(Testany(fs), m);
    } else {
      LogAgainShows(p, lo, b, ideals, dones);
    }
  }

  lemma {:induction false} GenWaitanyShows(p: seq<Cd>, fs: seq<nat>, m: Mpi, lo: nat, b: nat, ideals: seq<seq<Ideal>>,
                                           dones: seq<seq<Act>>)
    requires AllShow(p, lo, b, ideals, dones) && Legal(Waitany(fs), m) && Gen(p, Waitany(fs), m).Some?
    ensures AllShow(Gen(p, Waitany(fs), m).value, lo, b, Extend(ideals, Trace(Waitany(fs), m)), dones)
  {
    hide Shows, LogTop, Int, Complete;
    var x := [Fixed(Int(m.index))];
    LogTopShows(p, Int(m.index), 0, lo, b, ideals, dones);
    CompleteShows(LogTop(p, Int(m.index), 0), fs[m.index], lo, b, Extend(ideals, x), dones);
    ExtendTwice(ideals, x, [Fixed([])]);
    assert x + [Fixed([])] == Trace(Waitany(fs), m);
  }

  lemma {:induction false} GenWaitsomeShows(p: seq<Cd>, fs: seq<nat>, m: Mpi, lo: nat, b: nat, ideals: seq<seq<Ideal>>,
                                            dones: seq<seq<Act>>)
    requires AllShow(p, lo, b, ideals, dones) && Legal(Waitsome(fs), m) && Gen(p, Waitsome(fs), m).Some?
    ensures AllShow(Gen(p, Waitsome(fs), m).value, lo, b, Extend(ideals, Trace(Waitsome(fs), m)), dones)
  {
    hide Shows, LogTop, Int, CompleteAll, EncInts;
    var n := |m.indices|;
    var x := [Fixed(Int(n)), Fixed(EncInts(m.indices))];
    LogTwoShows(p, Int(n), EncInts(m.indices), 0, lo, b, ideals, dones);
    CompleteAllShows(LogTop(LogTop(p, Int(n), 0), EncInts(m.indices), 0), Pick(fs, m.indices), lo, b,
                     Extend(ideals, x), dones);
    ExtendTwice(ideals, x, Events(n));
  }

  /** One recorded call leaves exactly its own records behind, in this CD, whatever it completes elsewhere. */
  lemma {:induction false} GenShows(p: seq<Cd>, c: Call, m: Mpi, lo: nat, b: nat, ideals: seq<seq<Ideal>>,
                                    dones: seq<seq<Act>>)
    requires AllShow(p, lo, b, ideals, dones) && Legal(c, m) && Gen(p, c, m).Some?
    ensures AllShow(Gen(p, c, m).value, lo, b, Extend(ideals, Trace(c, m)), dones)
  {
    hide AllShow, LogTop, Int, Complete, CompleteAll, GenTest, Post, Extend, EncInts, Pick;
    match c
    case Send => LogTopShows(p, [], m.task, lo, b, ideals, dones);
    case Recv(_) => LogTopShows(p, m.data, m.task, lo, b, ideals, dones);
    case Sendrecv(_) => LogTwoShows(p, [], m.data, m.task, lo, b, ideals, dones);
    case Isend(f, intra) =>
      PostShows(p, Incomplete(f, [], false, intra, m.task), m.junk, lo, b, ideals, dones);
    case Irecv(f, n, intra) =>
      PostShows(p, Incomplete(f, m.data, true, intra, m.task), m.junk, lo, b, ideals, dones);
    case Test(f) => GenTestShows(p, [f], m, lo, b, ideals, dones);
    case Testall(fs) => GenTestShows(p, fs, m, lo, b, ideals, dones);
    case Testany(fs) => GenTestanyShows(p, fs, m, lo, b, ideals, dones);
    case Waitall(fs) => CompleteAllShows(p, fs, lo, b, ideals, dones);
    case Waitany(fs) => GenWaitanyShows(p, fs, m, lo, b, ideals, dones);
    case Waitsome(fs) => GenWaitsomeShows(p, fs, m, lo, b, ideals, dones);
  }

  lemma {:induction false} OwnTraceAppend(x: seq<Act>, y: seq<Act>)
    ensures OwnTrace(x + y) == OwnTrace(x) + OwnTrace(y)
  {
    hide ActTrace;
    if x == [] {
      assert x + y == y;
    } else {
      OwnTraceAppend(x[1..], y);
      assert (x + y)[1..] == x[1..] + y && (x + y)[0] == x[0];
      var h, u, v := ActTrace(x[0]), OwnTrace(x[1..]), OwnTrace(y);
      assert h + (u + v) == h + u + v;
    }
  }

  lemma {:induction false} TraceNonEmpty(c: Call, m: Mpi)
    requires Legal(c, m)
    ensures Trace(c, m) != []
  {
  }

  /** A CD that recorded something of its own has something to push. */
  lemma {:induction false} OwnTraceLogs(acts: seq<Act>)
    ensures OwnTrace(acts) != [] ==> Logs(acts)
    decreases |acts|
  {
    if acts != [] {
      var n := |acts| - 1;
      OwnTraceLogs(acts[..n]);
      assert acts == acts[..n] + [acts[n]];
      OwnTraceAppend(acts[..n], [acts[n]]);
      assert [acts[n]][1..] == [];
    }
  }

  lemma {:induction false} LogsAppend(done: seq<Act>, a: Act)
    ensures Logs(done + [a]) <==> Logs(done) || (match a case Do(_, _) => true case Child(_, body, _) => Logs(body))
  {
    assert (done + [a])[..|done|] == done;
  }

  lemma {:induction false} MatchKidsAppend(kids: seq<Tree>, done: seq<Act>, a: Act)
    requires a.Do? || !Logs(a.body)
    ensures MatchKids(kids, done + [a]) <==> MatchKids(kids, done)
  {
    assert (done + [a])[..|done|] == done;
  }

  lemma {:induction false} MatchKidsPush(kids: seq<Tree>, done: seq<Act>, a: Act, t: Tree)
    requires a.Child? && Logs(a.body) && t.id == a.id && MatchTree(t, a.body) && MatchKids(kids, done)
    ensures MatchKids(kids + [t], done + [a])
  {
    assert (done + [a])[..|done|] == done;
    assert (kids + [t])[..|kids|] == kids;
  }

  /** `dones` with one more act done in the current CD. */
  function Did(dones: seq<seq<Act>>, acts: seq<Act>): seq<seq<Act>>
    requires dones != []
  {
    dones[|dones| - 1 := dones[|dones| - 1] + acts]
  }

  lemma {:induction false} DoShows(p: seq<Cd>, a: Act, lo: nat, b: nat, ideals: seq<seq<Ideal>>, dones: seq<seq<Act>>)
    requires a.Do? && ideals != [] && dones != [] && Legal(a.call, a.mpi)
    requires AllShow(p, lo, b, Extend(ideals, Trace(a.call, a.mpi)), dones)
    ensures AllShow(p, lo, b, Extend(ideals, OwnTrace([a])), Did(dones, [a]))
  {
    hide MatchKids, Logs, Represents, ValidCd, Trace;
    var t := |p| - 1;
    assert [a][1..] == [];
    assert OwnTrace([a]) == Trace(a.call, a.mpi);
    TraceNonEmpty(a.call, a.mpi);
    LogsAppend(dones[t], a);
    MatchKidsAppend(p[t].kids, dones[t], a);
  }

  /** The CD that ends leaves its books with its parent. */
  lemma {:induction false} HandoverShows(p: seq<Cd>, a: Act, lo: nat, b: nat, ideals: seq<seq<Ideal>>,
                                         dones: seq<seq<Act>>)
    requires a.Child? && |p| >= 2 && lo < |p| - 1 && b <= |p| - 1 && Top(p).id == a.id
    requires AllShow(p, lo, b, ideals, dones)
    requires ideals[|p| - 1] == OwnTrace(a.body) && dones[|p| - 1] == a.body
    ensures AllShow(Handover(p, a.alloc), lo, b, Extend(ideals[..|p| - 1], OwnTrace([a])), Did(dones[..|p| - 1], [a]))
  {
    hide Shows, Alert, TreeOf;
    var c, t := Top(p), |p| - 2;
    NoTraceOfChild(a);
    assert ideals[t] + [] == ideals[t];
    HandoverValid(p, a.alloc);
    assert Handover(p, a.alloc)[t] == Top(Handover([p[t], c], a.alloc));
    ParentShows(p[t], c, a, ideals[t], dones[t]);
  }

  lemma NoTraceOfChild(a: Act)
    requires a.Child?
    ensures OwnTrace([a]) == []
  {
    assert [a][1..] == [];
  }

  lemma {:induction false} ParentShows(parent: Cd, c: Cd, a: Act, ideals: seq<Ideal>, done: seq<Act>)
    requires a.Child? && c.id == a.id && Shows(parent, ideals, done)
    requires Shows(c, OwnTrace(a.body), a.body) && Alert(c, OwnTrace(a.body), a.body)
    ensures
      var q := Top(Handover([parent, c], a.alloc));
      Shows(q, ideals, done + [a]) && (Alert(parent, ideals, done) ==> Alert(q, ideals, done + [a]))
  {
    hide MatchKids, Logs, Represents, Valid;
    var p := [parent, c];
    var q := Top(Handover(p, a.alloc));
    OwnTraceLogs(a.body);
    LogsAppend(done, a);
    if Logs(a.body) {
      TreeMatches(c, a);
      MatchKidsPush(parent.kids, done, a, TreeOf(c, a.alloc));
    } else {
      MatchKidsAppend(parent.kids, done, a);
    }
    assert ValidCd(q) by { HandoverValid(p, a.alloc); }
    SameBooks(parent.log, q.log, ideals);
  }

  /** Mode, cursor, child bytes and the generated flag are not part of what a log represents. */
  lemma {:induction false} SameBooks(l: Log, r: Log, ideals: seq<Ideal>)
    requires Represents(l, ideals) && Valid(r) && r.table == l.table && r.queue == l.queue
    ensures Represents(r, ideals)
  {
    assert forall i :: 0 <= i < |l.table| ==> LogModel.Payload(r, i) == LogModel.Payload(l, i);
    AheadSame(l, r, 0);
  }

  lemma {:induction false} TreeMatches(c: Cd, a: Act)
    requires a.Child? && Shows(c, OwnTrace(a.body), a.body)
    ensures MatchTree(TreeOf(c, a.alloc), a.body)
  {
    hide MatchKids, Logs, Represents;
    LogOfTreeValid(c, a.alloc);
    SameBooks(c.log, LogOfTree(TreeOf(c, a.alloc)), OwnTrace(a.body));
  }

  /**
    Recording, to any depth: afterwards the current CD's log holds exactly the records of its own calls,
    and its packed children are exactly its child CDs that logged something, each with its records.
   */
  lemma {:induction false} RecordShows(p: seq<Cd>, acts: seq<Act>, lo: nat, b: nat, ideals: seq<seq<Ideal>>,
                                       dones: seq<seq<Act>>)
    requires AllShow(p, lo, b, ideals, dones) && b <= |p| && LegalActs(acts) && RecordRun(p, acts).Some?
    ensures AllShow(RecordRun(p, acts).value, lo, b, Extend(ideals, OwnTrace(acts)), Did(dones, acts))
    decreases acts
  {
    hide RecordAct, LegalActs, LegalAct, ValidPath, OwnTrace, Extend, Did, AllShow;
    AllShowLengths(p, lo, b, ideals, dones);
    if acts == [] {
      NoBooks(ideals, dones);
    } else {
      var a, rest := acts[0], acts[1..];
      LegalSplit(acts);
      RecordActShows(p, a, lo, b, ideals, dones);
      RecordShows(RecordAct(p, a).value, rest, lo, b, Extend(ideals, OwnTrace([a])), Did(dones, [a]));
      MoreBooks(acts, ideals, dones);
    }
  }

  lemma {:induction false} AllShowLengths(p: seq<Cd>, lo: nat, b: nat, ideals: seq<seq<Ideal>>, dones: seq<seq<Act>>)
    requires AllShow(p, lo, b, ideals, dones)
    ensures lo < |p| == |ideals| == |dones| && ValidPath(p)
  {
  }

  lemma {:induction false} LegalSplit(acts: seq<Act>)
    requires LegalActs(acts) && acts != []
    ensures LegalAct(acts[0]) && LegalActs(acts[1..])
  {
  }

  lemma {:induction false} NoBooks(ideals: seq<seq<Ideal>>, dones: seq<seq<Act>>)
    requires ideals != [] && dones != []
    ensures Extend(ideals, OwnTrace([])) == ideals && Did(dones, []) == dones
  {
    assert ideals[|ideals| - 1] + [] == ideals[|ideals| - 1];
    assert dones[|dones| - 1] + [] == dones[|dones| - 1];
  }

  lemma {:induction false} MoreBooks(acts: seq<Act>, ideals: seq<seq<Ideal>>, dones: seq<seq<Act>>)
    requires acts != [] && ideals != [] && dones != []
    ensures Extend(Extend(ideals, OwnTrace([acts[0]])), OwnTrace(acts[1..])) == Extend(ideals, OwnTrace(acts))
    ensures Did(Did(dones, [acts[0]]), acts[1..]) == Did(dones, acts)
  {
    hide OwnTrace;
    var a, rest := [acts[0]], acts[1..];
    assert acts == a + rest;
    OwnTraceAppend(a, rest);
    ExtendTwice(ideals, OwnTrace(a), OwnTrace(rest));
    assert dones[|dones| - 1] + a + rest == dones[|dones| - 1] + acts;
  }

  lemma {:induction false} RecordActShows(p: seq<Cd>, a: Act, lo: nat, b: nat, ideals: seq<seq<Ideal>>,
                                          dones: seq<seq<Act>>)
    requires AllShow(p, lo, b, ideals, dones) && b <= |p| && LegalAct(a) && RecordAct(p, a).Some?
    ensures AllShow(RecordAct(p, a).value, lo, b, Extend(ideals, OwnTrace([a])), Did(dones, [a]))
    decreases a
  {
    hide Handover, Gen, ActTrace, OwnTrace, AllShow, ValidPath, LegalActs, RecordRun;
    AllShowLengths(p, lo, b, ideals, dones);
    match a
    case Do(c, m) =>
      GenShows(p, c, m, lo, b, ideals, dones);
      DoShows(Gen(p, c, m).value, a, lo, b, ideals, dones);
    case Child(id, body, alloc) =>
      var p1, i1, d1 := p + [Fresh(id)], ideals + [[]], dones + [[]];
      BeginShows(p, id, lo, b, ideals, dones);
      FreshValid(p, id);
      RecordShows(p1, body, lo, b, i1, d1);
      var i2, d2 := Extend(i1, OwnTrace(body)), Did(d1, body);
      assert i2[|p|] == OwnTrace(body) && i2[..|p|] == ideals;
      assert d2[|p|] == body && d2[..|p|] == dones;
      HandoverShows(RecordRun(p1, body).value, a, lo, b, i2, d2);
  }

  lemma {:induction false} BeginShows(p: seq<Cd>, id: CDID, lo: nat, b: nat, ideals: seq<seq<Ideal>>,
                                      dones: seq<seq<Act>>)
    requires AllShow(p, lo, b, ideals, dones)
    ensures |p| == |ideals| == |dones| && lo < |p|
    ensures AllShow(p + [Fresh(id)], lo, b, ideals + [[]], dones + [[]])
  {
    hide Shows;
    FreshValid(p, id);
    FreshShows(id);
  }

  lemma {:induction false} FreshShows(id: CDID)
    ensures Shows(Fresh(id), [], [])
  {
    assert Ahead(EMPTY, 0) == [];
  }
}
