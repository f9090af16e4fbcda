/** Recording on the arrays: a task's CDs, each with its CommLog, and the wrappers that write into them. */
module Recorder {
  import opened Bytes
  import opened LogModel
  import opened PackFormat
  import opened CommLogs
  import opened CdLogs
  import opened Wrappers
  import opened WholeRun
  import Playback

  /** A CD without its logs. */
  datatype Head = Head(id: CDID, relaxed: bool, incomplete: seq<Incomplete>)

  ghost function Records(kids: seq<Tree>): (rs: seq<Packed>)
    ensures |rs| == |kids|
  {
    seq(|kids|, i requires 0 <= i < |kids| => Packed(kids[i].id, ImageOf(kids[i]), kids[i].ptrs))
  }

  /** A log without the bytes of its child buffer, which a Cd keeps as trees. */
  function Bare(l: Log): Log
  {
    l.(child := [])
  }

  lemma BareValid(l: Log)
    ensures LogModel.Valid(l) <==> LogModel.Valid(Bare(l))
  {
  }

  /** The CD `c` is what these say: its log is in the arrays, and the records of its children in the child buffer. */
  ghost predicate Tied(log: CommLog, head: Head, c: Cd)
    reads log, log.table, log.queue, log.child
  {
    && log.Valid() && 0 < log.table.Length
    && c.log == Bare(log.Value()) && head == Head(c.id, c.relaxed, c.incomplete) && ValidCd(c)
    && log.Value().child == PackAll(Records(c.kids))
    && (forall i :: 0 <= i < |c.kids| ==> FitsPacked(Records(c.kids)[i]))
  }

  ghost predicate Disjoint(a: CommLog, b: CommLog)
    reads a, b
  {
    && a != b && a.table != b.table && a.queue != b.queue && a.queue != b.child && a.child != b.queue
    && (a.child != null ==> a.child != b.child)
  }

  /** What a CD becomes when a record is logged in it. */
  function Logged(c: Cd, data: seq<byte>, task: nat, completed: bool, flag: nat, isrepeated: bool, junk: seq<byte>): Cd
    requires isrepeated ==> c.log.table != []
  {
    c.(log := LogData(c.log, data, task, completed, flag, isrepeated, junk))
  }

  /** One log: the record goes into its table and queue, and the children's bytes stay. */
  method Write(log: CommLog, head: Head, ghost c: Cd, data: seq<byte>, task: nat, completed: bool, flag: nat,
               isrepeated: bool) returns (ghost junk: seq<byte>)
    requires Tied(log, head, c) && (isrepeated ==> c.log.table != [])
    modifies log, log.table, log.queue
    ensures |junk| == |data| && Tied(log, head, Logged(c, data, task, completed, flag, isrepeated, junk))
    ensures (log.table == old(log.table) || fresh(log.table)) && (log.queue == old(log.queue) || fresh(log.queue))
    ensures log.child == old(log.child)
  {
    hide LogModel.Valid, PackAll, FitsPacked, Records;
    ghost var v := log.Value();
    junk := log.LogData(data, task, completed, flag, isrepeated);
    BareLogs(v, data, task, completed, flag, isrepeated, junk);
    LogDataValid(c.log, data, task, completed, flag, isrepeated, junk);
  }

  /** A late completion in the log itself. */
  method FillLog(log: CommLog, head: Head, ghost c: Cd, data: seq<byte>, flag: nat) returns (found: bool)
    requires Tied(log, head, c) && LengthAgrees(c.log.table, flag, |data|)
    modifies log.table, log.queue
    ensures LogModel.Valid(c.log) && found == (FirstFlag(c.log.table, flag) < |c.log.table|)
    ensures Tied(log, head, c.(log := ProbeAndLog(c.log, data, flag)))
  {
    hide Tiled, PackAll, FitsPacked, Records, FirstFlag, Splice;
    ghost var v := log.Value();
    found := log.ProbeAndLogData(data, flag);
    ProbeAndLogFillsOne(c.log, data, flag);
    BareFills(v, data, flag);
  }

  lemma {:induction false} BareFills(l: Log, data: seq<byte>, flag: nat)
    requires LogModel.Valid(l) && LengthAgrees(l.table, flag, |data|)
    ensures LogModel.Valid(Bare(l))
    ensures Bare(ProbeAndLog(l, data, flag)) == ProbeAndLog(Bare(l), data, flag)
    ensures ProbeAndLog(l, data, flag).child == l.child
  {
    hide Tiled, FirstFlag, Splice;
  }

  /** A late completion in the record of a child. */
  method PatchLog(log: CommLog, head: Head, ghost c: Cd, data: seq<byte>, flag: nat) returns (found: bool)
    requires Tied(log, head, c) && FillKid(c.kids, data, flag).Some?
    modifies log.child
    ensures found == (FirstKid(c.kids, flag) < |c.kids|)
    ensures Tied(log, head, c.(kids := FillKid(c.kids, data, flag).value))
  {
    hide LogModel.Valid, PackAll, FitsPacked, FirstKid, FirstRecord, PatchRecords, FillKid, Patchable, Records;
    ghost var v := log.Value();
    PatchIs(c, data, flag);
    found := log.ProbeAndLogDataPacked(data, flag, Records(c.kids));
    BareValid(v);
    BareValid(log.Value());
  }

  lemma {:induction false} PatchIs(c: Cd, data: seq<byte>, flag: nat)
    requires ValidCd(c) && (forall i :: 0 <= i < |c.kids| ==> FitsPacked(Records(c.kids)[i]))
    requires FillKid(c.kids, data, flag).Some?
    ensures
      var kids, after := c.kids, FillKid(c.kids, data, flag).value;
      && |after| == |kids| && Patchable(Records(kids), data, flag)
      && Records(after) == PatchRecords(Records(kids), data, flag)
      && FirstRecord(Records(kids), flag) == FirstKid(kids, flag)
      && (forall i :: 0 <= i < |kids| ==> LogModel.Valid(LogOfTree(after[i])) && FitsPacked(Records(after)[i]))
  {
    hide LogModel.Valid, FirstKid, FirstRecord, PatchRecords, FillKid, Patchable, ImageOf, FitsPacked;
    var t, kids := TreeOf(c, Alloc(Ptrs(0, 0, 0), 0, 0, 0)), c.kids;
    FillKidPatches(t, data, flag);
    FirstKidRecord(t, flag);
    var after := FillKid(kids, data, flag).value;
    assert KidRecords(t) == Records(kids) && KidRecords(t.(kids := after)) == Records(after);
    PatchFits(Records(kids), data, flag);
  }

  lemma {:induction false} PatchFits(rs: seq<Packed>, data: seq<byte>, flag: nat)
    requires Patchable(rs, data, flag) && forall i :: 0 <= i < |rs| ==> FitsPacked(rs[i])
    ensures forall i :: 0 <= i < |rs| ==> FitsPacked(PatchRecords(rs, data, flag)[i])
  {
    hide Tiled, FirstFlag, FirstRecord, Splice;
    var k := FirstRecord(rs, flag);
    if k < |rs| {
      CompleteFits(rs[k], data, flag);
    }
  }

  lemma {:induction false} CompleteFits(r: Packed, data: seq<byte>, flag: nat)
    requires FitsPacked(r) && LogModel.Valid(LogOf(r.img)) && LengthAgrees(r.img.table, flag, |data|)
    ensures FitsPacked(r.(img := CompleteImage(r.img, data, flag)))
  {
    hide Tiled, FirstFlag, Splice;
    ProbeAndLogFillsOne(LogOf(r.img), data, flag);
    var l := ProbeAndLog(LogOf(r.img), data, flag);
    assert |l.queue| == |r.img.queue| by { SameQueue(LogOf(r.img), data, flag); }
  }

  lemma {:induction false} SameQueue(l: Log, data: seq<byte>, flag: nat)
    requires LogModel.Valid(l) && LengthAgrees(l.table, flag, |data|)
    ensures |ProbeAndLog(l, data, flag).queue| == |l.queue|
  {
    hide FirstFlag;
    if FirstFlag(l.table, flag) < |l.table| {
      TiledBounds(l.table, |l.queue|, FirstFlag(l.table, flag));
    }
  }

  lemma BareLogs(l: Log, data: seq<byte>, task: nat, completed: bool, flag: nat, isrepeated: bool, junk: seq<byte>)
    requires isrepeated ==> l.table != []
    ensures
      var r := LogData(l, data, task, completed, flag, isrepeated, junk);
      Bare(r) == LogData(Bare(l), data, task, completed, flag, isrepeated, junk) && r.child == l.child
  {
  }

  lemma JunkUnused(c: Cd, data: seq<byte>, task: nat, isrepeated: bool, junk: seq<byte>)
    requires isrepeated ==> c.log.table != []
    ensures Logged(c, data, task, true, 0, isrepeated, junk) == Logged(c, data, task, true, 0, isrepeated, data)
  {
  }

  /** Only the length of an unfinished record is looked at. */
  lemma OpenSlot(c: Cd, it: Incomplete, junk: seq<byte>)
    requires |junk| == |it.arrives|
    ensures Logged(c, it.arrives, it.task, false, it.flag, false, junk)
         == Logged(c, junk, it.task, false, it.flag, false, junk)
  {
  }

  lemma {:induction false} LogTopIs(p: seq<Cd>, data: seq<byte>, task: nat)
    requires ValidPath(p)
    ensures LogTop(p, data, task) == WithTop(p, Logged(Top(p), data, task, true, 0, false, data))
    ensures Top(p).log.table != [] ==>
              LogAgain(p, data, task) == Some(WithTop(p, Logged(Top(p), data, task, true, 0, true, data)))
  {
    hide LogModel.Valid;
  }

  lemma {:induction false} PostIs(p: seq<Cd>, it: Incomplete, junk: seq<byte>)
    requires ValidPath(p) && it.flag != 0
    ensures
      var d := Logged(Top(p), junk, it.task, false, it.flag, false, junk);
      d.incomplete == Top(p).incomplete && Post(p, it, junk) == WithTop(p, d.(incomplete := Top(p).incomplete + [it]))
  {
    hide LogModel.Valid;
  }

  lemma {:induction false} AboveStep(p: seq<Cd>, n: nat, data: seq<byte>, flag: nat)
    requires ValidPath(p) && n < |p| && FillAbove(p, n, data, flag).Some?
    ensures
      if n == 0 || !p[n - 1].relaxed then FillAbove(p, n, data, flag) == Some(p)
      else
        && ValidCd(p[n - 1])
        && var c, kids := p[n - 1], FillKid(p[n - 1].kids, data, flag);
        && kids.Some?
        && if FirstKid(c.kids, flag) < |c.kids| then
             FillAbove(p, n, data, flag) == Some(p[n - 1 := c.(kids := kids.value)])
           else kids.value == c.kids && FillAbove(p, n, data, flag) == FillAbove(p, n - 1, data, flag)
  {
    hide LogModel.Valid, FirstKid, Fill;
    if n > 0 {
      assert ValidCd(p[n - 1]);
    }
  }

  lemma {:induction false} FillPathIs(p: seq<Cd>, data: seq<byte>, flag: nat)
    requires ValidPath(p) && FillPath(p, data, flag).Some?
    ensures
      var c := Top(p);
      && LogModel.Valid(c.log) && LengthAgrees(c.log.table, flag, |data|)
      && (if FirstFlag(c.log.table, flag) < |c.log.table| then
            FillPath(p, data, flag).value == WithTop(p, c.(log := ProbeAndLog(c.log, data, flag)))
          else
            && WithTop(p, c.(log := ProbeAndLog(c.log, data, flag))) == p
            && FillPath(p, data, flag) == FillAbove(p, |p| - 1, data, flag))
  {
    hide Tiled, FirstFlag, FillAbove, Splice;
    assert ValidCd(Top(p));
  }

  /** The sizes a log is packed with. */
  ghost function Sizes(log: CommLog, ptrs: Ptrs): Alloc
    reads log
  {
    Alloc(ptrs, log.table.Length, log.queue.Length, if log.child == null then 0 else log.child.Length)
  }

  lemma {:induction false} ImageIs(log: CommLog, head: Head, c: Cd, ptrs: Ptrs)
    requires Tied(log, head, c)
    ensures log.Img() == ImageOf(TreeOf(c, Sizes(log, ptrs)))
  {
    hide LogModel.Valid, PackAll, FitsPacked;
    assert KidRecords(TreeOf(c, Sizes(log, ptrs))) == Records(c.kids);
  }

  /** What the parent becomes when `c` ends. */
  function Parent(parent: Cd, c: Cd, a: Alloc): Cd
  {
    Top(Handover([parent, c], a))
  }

  /** The end of a CD: its log goes into the parent's child buffer if there is anything new in it. */
  method PushUp(log: CommLog, parent: CommLog, head: Head, above: Head, ghost c: Cd, ghost d: Cd, ptrs: Ptrs)
    returns (next: Head, ghost a: Alloc)
    requires Tied(log, head, c) && Tied(parent, above, d) && Disjoint(log, parent)
    requires log.generated && above.relaxed ==> FitsPacked(Packed(head.id, log.Img(), ptrs))
    modifies log, parent`child, parent`childCur, parent`generated, parent`mode, parent.child
    ensures a == old(Sizes(log, ptrs)) && Tied(parent, next, Parent(d, c, a))
    ensures parent.child == old(parent.child) || fresh(parent.child)
  {
    hide LogModel.Valid, PackAll, FitsPacked, Pack, ImageOf, Records;
    a := Sizes(log, ptrs);
    ghost var v, w := parent.Value(), log.Value();
    ghost var r, rs := Packed(head.id, log.Img(), ptrs), Records(d.kids);
    ImageIs(log, head, c, ptrs);
    ParentIs(d, c, a);
    Playback.CompleteLogs(log, parent, above.relaxed, head.id, ptrs, rs);
    next := above.(incomplete := above.incomplete + head.incomplete);
    BareValid(parent.Value());
    RecordsPush(d.kids, TreeOf(c, a));
  }

  lemma RecordsPush(kids: seq<Tree>, t: Tree)
    ensures Records(kids + [t]) == Records(kids) + [Packed(t.id, ImageOf(t), t.ptrs)]
  {
  }

  lemma {:induction false} ParentIs(parent: Cd, c: Cd, a: Alloc)
    requires ValidCd(parent) && ValidCd(c)
    ensures
      var push := c.log.generated && parent.relaxed;
      var mode := if push && c.log.mode == GenerateLog then GenerateLog else parent.log.mode;
      && ValidCd(Parent(parent, c, a))
      && Parent(parent, c, a) ==
           parent.(log := parent.log.(generated := push || parent.log.generated, mode := mode),
                   kids := if push then parent.kids + [TreeOf(c, a)] else parent.kids,
                   incomplete := parent.incomplete + c.incomplete)
  {
    hide LogModel.Valid;
    var p := [parent, c];
    assert ValidPath(p);
    HandoverValid(p, a);
  }

  lemma {:induction false} HandoverIs(p: seq<Cd>, a: Alloc)
    requires |p| >= 2
    ensures
      var n := |p| - 1;
      |Handover(p, a)| == n && Handover(p, a) == p[..n][n - 1 := Parent(p[n - 1], p[n], a)]
  {
    hide TreeOf;
  }

  lemma {:induction false} FreshTied(log: CommLog, id: CDID)
    requires log.Valid() && 0 < log.table.Length && log.Value() == EMPTY
    ensures Tied(log, Head(id, true, []), Fresh(id))
  {
    assert Records([]) == [] && PackAll([]) == [];
  }

  lemma PollNeedsEntry(p: seq<Cd>, data: seq<byte>)
    requires ValidPath(p) && LogAgain(p, data, 0).Some?
    ensures Top(p).log.table != []
  {
  }

  class CdStack {
    var logs: seq<CommLog>
    var heads: seq<Head>
    /** The path of CDs that the replay theorems speak of. */
    ghost var path: seq<Cd>

    ghost predicate Valid()
      reads this, logs, set i | 0 <= i < |logs| :: logs[i].table, set i | 0 <= i < |logs| :: logs[i].queue,
            set i | 0 <= i < |logs| :: logs[i].child
    {
      && 0 < |logs| == |heads| == |path|
      && (forall i :: 0 <= i < |logs| ==> Tied(logs[i], heads[i], path[i]))
      && (forall i, j :: 0 <= i < |logs| && 0 <= j < |logs| && i != j ==> Disjoint(logs[i], logs[j]))
    }

    /** A root that records. */
    constructor (id: CDID, queueUnit: nat, tableUnit: nat, childUnit: nat)
      requires 0 < tableUnit && 0 < childUnit
      ensures Valid() && path == [Fresh(id)] && fresh(logs[0]) && fresh(logs[0].table) && fresh(logs[0].queue)
    {
      var log := new CommLog(GenerateLog, queueUnit, tableUnit, childUnit);
      FreshTied(log, id);
      logs, heads, path := [log], [Head(id, true, [])], [Fresh(id)];
    }

    lemma PathIsValid()
      requires Valid()
      ensures ValidPath(path)
    {
      forall i | 0 <= i < |path|
        ensures ValidCd(path[i])
      {
        assert Tied(logs[i], heads[i], path[i]);
      }
    }

    /** The same CDs; only the current one may have got new arrays. */
    twostate predicate SameStack()
      reads this, logs
    {
      && logs == old(logs) && |heads| == old(|heads|) && 0 < |logs|
      && (forall i :: 0 <= i < |logs| - 1 ==> logs[i].table == old(logs[i].table))
      && (forall i :: 0 <= i < |logs| - 1 ==> logs[i].queue == old(logs[i].queue))
      && (forall i :: 0 <= i < |logs| ==> logs[i].child == old(logs[i].child))
      && (var c := logs[|logs| - 1];
          (c.table == old(c.table) || fresh(c.table)) && (c.queue == old(c.queue) || fresh(c.queue)))
    }

    /** After a change of the CD at `n` alone, with new arrays or the old ones. */
    twostate lemma OneChanged(n: nat, new h: Head, new d: Cd)
      requires old(Valid()) && n < |old(logs)| && logs == old(logs)
      requires heads == old(heads)[n := h] && path == old(path)[n := d] && Tied(logs[n], h, d)
      requires forall i :: 0 <= i < |logs| && i != n ==> unchanged(logs[i])
      requires forall i :: 0 <= i < |logs| && i != n ==> unchanged(logs[i].table) && unchanged(logs[i].queue)
      requires forall i :: 0 <= i < |logs| && i != n && logs[i].child != null ==> unchanged(logs[i].child)
      requires logs[n].table == old(logs[n].table) || fresh(logs[n].table)
      requires logs[n].queue == old(logs[n].queue) || fresh(logs[n].queue)
      requires logs[n].child == old(logs[n].child) || fresh(logs[n].child)
      ensures Valid()
    {
      hide Tied;
      forall i, j | 0 <= i < |logs| && 0 <= j < |logs| && i != j
        ensures Disjoint(logs[i], logs[j])
      {
        assert old(Disjoint(logs[i], logs[j]));
      }
    }

    // ---- CD::LogData ----

    method WriteTop(data: seq<byte>, task: nat, completed: bool, flag: nat, isrepeated: bool)
      returns (ghost junk: seq<byte>)
      requires 0 < |logs| == |path| && (isrepeated ==> Top(path).log.table != [])
      requires Valid()
      modifies this`path, logs[|logs| - 1], logs[|logs| - 1].table, logs[|logs| - 1].queue
      ensures Valid()
      ensures SameStack()
      ensures heads == old(heads) && |junk| == |data|
      ensures path == WithTop(old(path), Logged(Top(old(path)), data, task, completed, flag, isrepeated, junk))
    {
      hide Tied, Logged;
      var n := |logs| - 1;
      junk := Write(logs[n], heads[n], path[n], data, task, completed, flag, isrepeated);
      ghost var d := Logged(path[n], data, task, completed, flag, isrepeated, junk);
      path := path[n := d];
      OneChanged(n, heads[n], d);
    }

    lemma Lengths()
      requires Valid()
      ensures |path| == |heads| == |logs| > 0
    {
    }

    method LogEvent(data: seq<byte>, task: nat)
      requires 0 < |logs| == |path|
      requires Valid()
      modifies this`path, logs[|logs| - 1], logs[|logs| - 1].table, logs[|logs| - 1].queue
      ensures Valid()
      ensures SameStack()
      ensures heads == old(heads) && ValidPath(old(path)) && path == LogTop(old(path), data, task)
    {
      hide Valid, SameStack, LogTop, Logged;
      PathIsValid();
      LogTopIs(path, data, task);
      ghost var junk := WriteTop(data, task, true, 0, false);
      JunkUnused(Top(old(path)), data, task, false, junk);
    }

    /** With the repeated flag; on an empty table the source reads the entry before the first. */
    method LogPoll(data: seq<byte>, task: nat)
      requires 0 < |logs| == |path| && Top(path).log.table != []
      requires Valid()
      modifies this`path, logs[|logs| - 1], logs[|logs| - 1].table, logs[|logs| - 1].queue
      ensures Valid()
      ensures SameStack()
      ensures heads == old(heads) && ValidPath(old(path)) && Some(path) == LogAgain(old(path), data, task)
    {
      hide Valid, SameStack, LogAgain, Logged;
      PathIsValid();
      LogTopIs(path, data, task);
      ghost var junk := WriteTop(data, task, true, 0, true);
      JunkUnused(Top(old(path)), data, task, true, junk);
    }

    /** A note more or less; the logs are not touched. */
    method Renote(k: nat, notes: seq<Incomplete>)
      requires k < |logs| == |path| && forall i :: 0 <= i < |notes| ==> notes[i].flag != 0
      requires Valid()
      modifies this`path, this`heads
      ensures Valid()
      ensures SameStack()
      ensures path == old(path)[k := old(path)[k].(incomplete := notes)]
    {
      hide LogModel.Valid, PackAll, FitsPacked, Records;
      assert Tied(logs[k], heads[k], path[k]);
      heads := heads[k := heads[k].(incomplete := notes)];
      path := path[k := path[k].(incomplete := notes)];
      OneChanged(k, heads[k], path[k]);
    }

    /** A non-blocking call: a reserved slot of the request's length, and a note. */
    method PostRequest(it: Incomplete) returns (ghost junk: seq<byte>)
      requires 0 < |logs| == |path| && it.flag != 0
      requires Valid()
      modifies this, logs[|logs| - 1], logs[|logs| - 1].table, logs[|logs| - 1].queue
      ensures Valid()
      ensures SameStack()
      ensures |junk| == |it.arrives| && ValidPath(old(path)) && path == Post(old(path), it, junk)
    {
      hide Valid, Logged, Post;
      PathIsValid();
      Lengths();
      ghost var p := path;
      junk := WriteTop(it.arrives, it.task, false, it.flag, false);
      OpenSlot(Top(p), it, junk);
      PostIs(p, it, junk);
      Lengths();
      var n := |logs| - 1;
      NotesOf(n);
      Renote(n, heads[n].incomplete + [it]);
    }

    method FillOwn(data: seq<byte>, flag: nat) returns (found: bool)
      requires 0 < |logs| == |path| && LengthAgrees(Top(path).log.table, flag, |data|)
      requires Valid()
      modifies this`path, logs[|logs| - 1].table, logs[|logs| - 1].queue
      ensures Valid()
      ensures heads == old(heads) && ValidPath(old(path))
      ensures found == (FirstFlag(Top(old(path)).log.table, flag) < |Top(old(path)).log.table|)
      ensures
        var c := Top(old(path));
        LogModel.Valid(c.log) && path == WithTop(old(path), c.(log := ProbeAndLog(c.log, data, flag)))
    {
      hide Tied, FirstFlag, LogModel.Valid;
      PathIsValid();
      var n := |logs| - 1;
      found := FillLog(logs[n], heads[n], path[n], data, flag);
      ghost var d := path[n].(log := ProbeAndLog(path[n].log, data, flag));
      path := path[n := d];
      OneChanged(n, heads[n], d);
    }

    method FillPacked(k: nat, data: seq<byte>, flag: nat) returns (found: bool)
      requires k < |logs| == |path| && ValidPath(path) && FillKid(path[k].kids, data, flag).Some?
      requires Valid()
      modifies this`path, logs[k].child
      ensures Valid()
      ensures heads == old(heads) && found == (FirstKid(old(path)[k].kids, flag) < |old(path)[k].kids|)
      ensures path == old(path)[k := old(path)[k].(kids := FillKid(old(path)[k].kids, data, flag).value)]
    {
      hide Tied, FirstKid, FillKid, LogModel.Valid;
      found := PatchLog(logs[k], heads[k], path[k], data, flag);
      ghost var d := path[k].(kids := FillKid(path[k].kids, data, flag).value);
      path := path[k := d];
      OneChanged(k, heads[k], d);
    }

    // ---- CD::ProbeAndLogData ----

    /** Looks for a packed child with the entry, from the parent upwards. */
    method PatchAbove(data: seq<byte>, flag: nat)
      requires 0 < |logs| == |path| && ValidPath(path) && FillAbove(path, |path| - 1, data, flag).Some?
      requires Valid()
      modifies this`path, set i | 0 <= i < |logs| :: logs[i].child
      ensures Valid()
      ensures heads == old(heads) && path == FillAbove(old(path), |old(path)| - 1, data, flag).value
    {
      hide Valid, ValidPath, FirstKid, FillKid, FillAbove;
      var n := |logs| - 1;
      while n > 0
        invariant 0 <= n < |path| == |logs| && path == old(path)
        invariant Valid()
        invariant FillAbove(path, |path| - 1, data, flag) == FillAbove(path, n, data, flag)
      {
        NotesOf(n - 1);
        AboveStep(path, n, data, flag);
        if !heads[n - 1].relaxed {
          return;
        }
        var found := FillPacked(n - 1, data, flag);
        if found {
          return;
        }
        assert path == old(path);
        n := n - 1;
      }
      AboveStep(path, 0, data, flag);
    }

    /** The payload goes into the entry of the current CD's log, or of a packed child further up. */
    method FillEntry(data: seq<byte>, flag: nat)
      requires 0 < |logs| == |path| && ValidPath(path) && FillPath(path, data, flag).Some?
      requires Valid()
      modifies this`path, logs[|logs| - 1].table, logs[|logs| - 1].queue, set i | 0 <= i < |logs| :: logs[i].child
      ensures Valid()
      ensures heads == old(heads) && path == FillPath(old(path), data, flag).value
    {
      hide Valid, ValidPath, FirstFlag, FillAbove, Fill;
      FillPathIs(path, data, flag);
      var found := FillOwn(data, flag);
      if !found {
        assert path == old(path);
        PatchAbove(data, flag);
      }
    }

    /** Looks for the note of a request, from the current CD upwards. */
    method FindNote(flag: nat) returns (k: nat, j: nat)
      requires 0 < |logs| == |path| && Holder(path, flag).Some?
      requires Valid()
      ensures k < |path| && Holder(path, flag) == Some(k) && j == FindFlag(path[k].incomplete, flag)
      ensures j < |path[k].incomplete| && k < |heads| && j < |heads[k].incomplete|
    {
      hide Valid;
      Lengths();
      k, j := |heads|, 0;
      while k > 0
        invariant k <= |heads| == |path|
        invariant forall i :: k <= i < |path| ==> !Holds(path[i], flag)
      {
        k := k - 1;
        NotesOf(k);
        j := 0;
        while j < |heads[k].incomplete|
          invariant j <= FindFlag(path[k].incomplete, flag)
        {
          if heads[k].incomplete[j].flag == flag {
            return;
          }
          j := j + 1;
        }
      }
    }

    /** CD::ProbeAndLogData, where the source's assertions hold. */
    method CompleteRequest(flag: nat)
      requires 0 < |logs| == |path| && ValidPath(path) && Complete(path, flag).Some?
      requires Valid()
      modifies this, logs[|logs| - 1], logs[|logs| - 1].table, logs[|logs| - 1].queue,
               set i | 0 <= i < |logs| :: logs[i].child
      ensures Valid()
      ensures SameStack()
      ensures path == Complete(old(path), flag).value
    {
      hide Valid, ValidPath, FillPath, LogTop, FindFlag, Holder;
      var k, j := FindNote(flag);
      NotesOf(k);
      var it := heads[k].incomplete[j];
      if !it.intra {
        FillEntry(it.arrives, flag);
      }
      Lengths();
      NotesOf(k);
      DropNote(k, j, it.task);
    }

    /** The completion event is logged and the note goes. */
    method DropNote(k: nat, j: nat, task: nat)
      requires k < |logs| == |path| && j < |path[k].incomplete|
      requires Valid()
      modifies this, logs[|logs| - 1], logs[|logs| - 1].table, logs[|logs| - 1].queue
      ensures Valid()
      ensures SameStack()
      ensures ValidPath(old(path))
      ensures
        var r := LogTop(old(path), [], task);
        j < |r[k].incomplete| && path == r[k := r[k].(incomplete := Remove(r[k].incomplete, j))]
    {
      hide Valid, ValidPath, LogTop;
      LogEvent([], task);
      Lengths();
      NotesOf(k);
      Renote(k, Remove(heads[k].incomplete, j));
    }

    /** The wrappers' loop over an array of requests. */
    method CompleteEach(flags: seq<nat>)
      requires 0 < |logs| == |path| && ValidPath(path) && CompleteAll(path, flags).Some?
      requires Valid()
      modifies this, logs[|logs| - 1], logs[|logs| - 1].table, logs[|logs| - 1].queue,
               set i | 0 <= i < |logs| :: logs[i].child
      ensures Valid()
      ensures SameStack()
      ensures path == CompleteAll(old(path), flags).value
    {
      hide Valid, Complete, ValidPath;
      var i := 0;
      Lengths();
      while i < |flags|
        invariant i <= |flags| && 0 < |logs| == |path| && ValidPath(path) && CompleteAll(path, flags[i..]).Some?
        invariant Valid()
        invariant SameStack()
        invariant CompleteAll(old(path), flags) == CompleteAll(path, flags[i..])
      {
        assert flags[i..][1..] == flags[i + 1..];
        CompleteRequest(flags[i]);
        Lengths();
        i := i + 1;
      }
    }

    // ---- the wrappers in kRelaxedCDGen ----

    method RecordTest(fs: seq<nat>, m: Mpi)
      requires 0 < |logs| == |path| && ValidPath(path) && GenTest(path, fs, m).Some?
      requires Valid()
      modifies this, logs[|logs| - 1], logs[|logs| - 1].table, logs[|logs| - 1].queue,
               set i | 0 <= i < |logs| :: logs[i].child
      ensures Valid()
      ensures SameStack()
      ensures path == GenTest(old(path), fs, m).value
    {
      hide Valid, CompleteAll, LogTop, Int, ValidPath;
      if m.flag {
        LogEvent(Int(1), 0);
        Lengths();
        CompleteEach(fs);
      } else {
        PollNeedsEntry(path, Int(0));
        LogPoll(Int(0), 0);
      }
    }

    method LogTwo(d: seq<byte>, e: seq<byte>, task: nat)
      requires 0 < |logs| == |path|
      requires Valid()
      modifies this`path, logs[|logs| - 1], logs[|logs| - 1].table, logs[|logs| - 1].queue
      ensures Valid()
      ensures SameStack()
      ensures heads == old(heads) && ValidPath(old(path)) && path == LogTop(LogTop(old(path), d, task), e, task)
    {
      hide Valid, LogTop, ValidPath;
      LogEvent(d, task);
      Lengths();
      LogEvent(e, task);
    }

    method RecordTestany(fs: seq<nat>, m: Mpi)
      requires 0 < |logs| == |path| && ValidPath(path) && Legal(Testany(fs), m) && GenTestany(path, fs, m).Some?
      requires Valid()
      modifies this, logs[|logs| - 1], logs[|logs| - 1].table, logs[|logs| - 1].queue,
               set i | 0 <= i < |logs| :: logs[i].child
      ensures Valid()
      ensures SameStack()
      ensures path == GenTestany(old(path), fs, m).value
    {
      hide Valid, Complete, LogTop, Int, ValidPath;
      if m.flag {
        LogTwo(Int(1), Int(m.index), 0);
        Lengths();
        CompleteRequest(fs[m.index]);
      } else {
        PollNeedsEntry(path, Int(0));
        LogPoll(Int(0), 0);
      }
    }

    method RecordWaitany(fs: seq<nat>, m: Mpi)
      requires 0 < |logs| == |path| && ValidPath(path) && Legal(Waitany(fs), m)
      requires Complete(LogTop(path, Int(m.index), 0), fs[m.index]).Some?
      requires Valid()
      modifies this, logs[|logs| - 1], logs[|logs| - 1].table, logs[|logs| - 1].queue,
               set i | 0 <= i < |logs| :: logs[i].child
      ensures Valid()
      ensures SameStack()
      ensures path == Complete(LogTop(old(path), Int(m.index), 0), fs[m.index]).value
    {
      hide Valid, Complete, LogTop, Int, ValidPath;
      LogEvent(Int(m.index), 0);
      Lengths();
      CompleteRequest(fs[m.index]);
    }

    method RecordWaitsome(fs: seq<nat>, m: Mpi)
      requires 0 < |logs| == |path| && ValidPath(path) && Legal(Waitsome(fs), m) && GenWaitsome(path, fs, m).Some?
      requires Valid()
      modifies this, logs[|logs| - 1], logs[|logs| - 1].table, logs[|logs| - 1].queue,
               set i | 0 <= i < |logs| :: logs[i].child
      ensures Valid()
      ensures SameStack()
      ensures path == GenWaitsome(old(path), fs, m).value
    {
      hide Valid, CompleteAll, LogTop, Int, ValidPath, EncInts;
      LogTwo(Int(|m.indices|), EncInts(m.indices), 0);
      Lengths();
      CompleteEach(Pick(fs, m.indices));
    }

    /**
      Any call in recording, as code over LogData, ProbeAndLogData and ProbeAndLogDataPacked: the arrays then
      hold what the value-level wrapper leaves, in the CD's own log and in the bytes of every child's record.
     */
    method Record(c: Call, m: Mpi) returns (ghost junk: seq<byte>)
      requires 0 < |logs| == |path| && ValidPath(path) && Legal(c, m) && Gen(path, c, m).Some?
      requires Valid()
      modifies this, logs[|logs| - 1], logs[|logs| - 1].table, logs[|logs| - 1].queue,
               set i | 0 <= i < |logs| :: logs[i].child
      ensures Valid()
      ensures SameStack()
      ensures Legal(c, if Blocking(c) then m else m.(junk := junk))
      ensures Some(path) == Gen(old(path), c, if Blocking(c) then m else m.(junk := junk))
    {
      hide Valid, CompleteAll, Complete, GenTest, GenTestany, GenWaitsome, LogTop, Post, Int, EncInts, Pick, ValidPath;
      hide SameStack;
      junk := [];
      match c
      case Send => LogEvent([], m.task);
      case Recv(_) => LogEvent(m.data, m.task);
      case Sendrecv(_) => LogTwo([], m.data, m.task);
      case Isend(f, intra) => junk := PostRequest(Incomplete(f, [], false, intra, m.task));
      case Irecv(f, _, intra) => junk := PostRequest(Incomplete(f, m.data, true, intra, m.task));
      case Test(f) => RecordTest([f], m);
      case Testall(fs) => RecordTest(fs, m);
      case Testany(fs) => RecordTestany(fs, m);
      case Waitall(fs) => CompleteEach(fs);
      case Waitany(fs) => RecordWaitany(fs, m);
      case Waitsome(fs) => RecordWaitsome(fs, m);
    }

    // ---- CDs begin and end ----

    /** A child CD that records starts with an empty log of its own. */
    method BeginCd(id: CDID, queueUnit: nat, tableUnit: nat, childUnit: nat)
      requires 0 < |logs| == |path| && 0 < tableUnit && 0 < childUnit
      requires Valid()
      modifies this
      ensures Valid()
      ensures path == old(path) + [Fresh(id)] && |logs| == |old(logs)| + 1 && logs[..|old(logs)|] == old(logs)
      ensures fresh(logs[|old(logs)|]) && fresh(logs[|old(logs)|].table) && fresh(logs[|old(logs)|].queue)
    {
      hide Tied;
      var log := new CommLog(GenerateLog, queueUnit, tableUnit, childUnit);
      assert Tied(log, Head(id, true, []), Fresh(id)) by { FreshTied(log, id); }
      Lengths();
      logs, heads, path := logs + [log], heads + [Head(id, true, [])], path + [Fresh(id)];
      StackGrown(log);
    }

    twostate lemma StackGrown(new log: CommLog)
      requires old(Valid()) && |logs| == |old(logs)| + 1 == |heads| == |path|
      requires logs == old(logs) + [log] && heads[..|old(logs)|] == old(heads) && path[..|old(logs)|] == old(path)
      requires Tied(log, heads[|old(logs)|], path[|old(logs)|])
      requires fresh(log) && fresh(log.table) && fresh(log.queue) && log.child == null
      requires forall i :: 0 <= i < |old(logs)| ==> unchanged(old(logs)[i])
      requires forall i :: 0 <= i < |old(logs)| ==> unchanged(old(logs)[i].table) && unchanged(old(logs)[i].queue)
      requires forall i :: 0 <= i < |old(logs)| && old(logs)[i].child != null ==> unchanged(old(logs)[i].child)
      ensures Valid()
    {
      hide Tied;
      var n := |old(logs)|;
      forall i | 0 <= i < n
        ensures Tied(logs[i], heads[i], path[i])
      {
        assert old(Tied(logs[i], heads[i], path[i]));
        assert heads[i] == old(heads)[i] && path[i] == old(path)[i] && logs[i] == old(logs)[i];
      }
      forall i, j | 0 <= i <= n && 0 <= j <= n && i != j
        ensures Disjoint(logs[i], logs[j])
      {
        if i < n && j < n {
          assert old(Disjoint(logs[i], logs[j]));
        }
      }
    }

    /** CD::CompleteLogs at the end of a CD. */
    method EndCd(ptrs: Ptrs) returns (ghost a: Alloc)
      requires 2 <= |logs| == |path| == |heads|
      requires Valid()
      requires logs[|logs| - 1].Shape()
      requires logs[|logs| - 1].generated && heads[|heads| - 2].relaxed ==>
                 FitsPacked(Packed(heads[|heads| - 1].id, logs[|logs| - 1].Img(), ptrs))
      modifies this, logs[|logs| - 1], logs[|logs| - 2], logs[|logs| - 2].child
      ensures Valid()
      ensures logs == old(logs)[..|old(logs)| - 1] && path == Handover(old(path), a)
    {
      hide Tied, FitsPacked, Handover, Parent, SameStack;
      var n := |logs| - 1;
      assert Disjoint(logs[n], logs[n - 1]);
      ghost var c, d := path[n], path[n - 1];
      var next;
      next, a := PushUp(logs[n], logs[n - 1], heads[n], heads[n - 1], c, d, ptrs);
      HandoverIs(path, a);
      logs, heads, path := logs[..n], heads[..n][n - 1 := next], Handover(path, a);
      StackPopped();
    }

    twostate lemma StackPopped()
      requires old(Valid()) && 2 <= |old(logs)| && logs == old(logs)[..|old(logs)| - 1]
      requires |heads| == |path| == |logs|
      requires heads[..|logs| - 1] == old(heads)[..|logs| - 1] && path[..|logs| - 1] == old(path)[..|logs| - 1]
      requires Tied(logs[|logs| - 1], heads[|logs| - 1], path[|logs| - 1])
      requires
        var t := logs[|logs| - 1];
        && t.table == old(t.table) && t.queue == old(t.queue) && (t.child == old(t.child) || fresh(t.child))
      requires forall i :: 0 <= i < |logs| - 1 ==> unchanged(logs[i])
      requires forall i :: 0 <= i < |logs| - 1 ==> unchanged(logs[i].table) && unchanged(logs[i].queue)
      requires forall i :: 0 <= i < |logs| - 1 && logs[i].child != null ==> unchanged(logs[i].child)
      ensures Valid()
    {
      hide Tied;
      var n := |logs| - 1;
      forall i | 0 <= i < n
        ensures Tied(logs[i], heads[i], path[i])
      {
        assert old(Tied(logs[i], heads[i], path[i]));
        assert heads[i] == heads[..n][i] == old(heads)[..n][i] && path[i] == path[..n][i] == old(path)[..n][i];
      }
      forall i, j | 0 <= i <= n && 0 <= j <= n && i != j
        ensures Disjoint(logs[i], logs[j])
      {
        assert old(Disjoint(logs[i], logs[j]));
      }
    }

    lemma NotesOf(k: nat)
      requires k < |logs| == |path|
      requires Valid()
      ensures k < |heads| && heads[k] == Head(path[k].id, path[k].relaxed, path[k].incomplete)
      ensures forall i :: 0 <= i < |path[k].incomplete| ==> path[k].incomplete[i].flag != 0
    {
      assert Tied(logs[k], heads[k], path[k]);
    }
  }
}
