/**
  The logging side of a task's CDs: the path from the root to the current CD, each CD with its log, the
  packed logs of its finished children and its requests that have not completed yet.
 */
module CdLogs {
  import opened Bytes
  import opened LogModel
  import opened PackFormat

  /** struct IncompleteLogEntry, without the fields that only name MPI objects. `arrives` is what its buffer
      will hold when the request completes, and |arrives| its length_. */
  datatype Incomplete = Incomplete(flag: nat, arrives: seq<byte>, isrecv: bool, intra: bool, task: nat)

  /** `log.child` is kept in structured form, as the trees in `kids`; see PackedKids. */
  datatype Cd = Cd(id: CDID, relaxed: bool, log: Log, kids: seq<Tree>, incomplete: seq<Incomplete>)

  function LogOfTree(t: Tree): Log
  {
    Log(ReplayLog, t.table, t.queue, [], 0, false)
  }

  ghost predicate ValidCd(c: Cd)
  {
    && Valid(c.log)
    && (forall i :: 0 <= i < |c.kids| ==> Valid(LogOfTree(c.kids[i])))
    && (forall i :: 0 <= i < |c.incomplete| ==> c.incomplete[i].flag != 0)
  }

  /** The same CD; if it recorded it still does. */
  ghost predicate SameCd(c: Cd, d: Cd)
  {
    c.id == d.id && c.relaxed == d.relaxed && (c.log.mode == GenerateLog ==> d.log.mode == GenerateLog)
  }

  ghost predicate SameCds(p: seq<Cd>, q: seq<Cd>)
  {
    |p| == |q| && forall i :: 0 <= i < |p| ==> SameCd(p[i], q[i])
  }

  /** Same CDs with the same notes; logs may differ. */
  ghost predicate SameNotes(p: seq<Cd>, q: seq<Cd>)
  {
    SameCds(p, q) && forall i :: 0 <= i < |p| ==> p[i].incomplete == q[i].incomplete
  }

  ghost predicate ValidPath(p: seq<Cd>)
  {
    p != [] && forall i :: 0 <= i < |p| ==> ValidCd(p[i])
  }

  function Top(p: seq<Cd>): Cd
    requires p != []
  {
    p[|p| - 1]
  }

  function WithTop(p: seq<Cd>, c: Cd): seq<Cd>
    requires p != []
  {
    p[|p| - 1 := c]
  }

  lemma {:induction false} WithTopValid(p: seq<Cd>, c: Cd)
    requires ValidPath(p) && ValidCd(c)
    ensures ValidPath(WithTop(p, c))
  {
  }

  // ---- CD::LogData ----

  function LogTop(p: seq<Cd>, data: seq<byte>, task: nat): (r: seq<Cd>)
    requires ValidPath(p)
    ensures ValidPath(r) && SameNotes(p, r)
  {
    var c := Top(p);
    assert ValidCd(c);
    var d := c.(log := LogData(c.log, data, task, true, 0, false, data));
    LogDataValid(c.log, data, task, true, 0, false, data);
    assert ValidCd(d);
    WithTopValid(p, d);
    WithTop(p, d)
  }

  /** With the repeated flag; on an empty table the check would read the entry before the first one. */
  function LogAgain(p: seq<Cd>, data: seq<byte>, task: nat): (r: Option<seq<Cd>>)
    requires ValidPath(p)
    ensures r.Some? ==> ValidPath(r.value) && SameNotes(p, r.value)
  {
    var c := Top(p);
    assert ValidCd(c);
    if c.log.table == [] then None
    else
      var d := c.(log := LogData(c.log, data, task, true, 0, true, data));
      LogDataValid(c.log, data, task, true, 0, true, data);
      assert ValidCd(d);
      WithTopValid(p, d);
      Some(WithTop(p, d))
  }

  /** A non-blocking call: an unfinished entry in the log and a note of the request. */
  function Post(p: seq<Cd>, it: Incomplete, junk: seq<byte>): (r: seq<Cd>)
    requires ValidPath(p) && it.flag != 0
    ensures ValidPath(r) && SameCds(p, r)
  {
    var c := Top(p);
    assert ValidCd(c);
    var d := c.(log := LogData(c.log, junk, it.task, false, it.flag, false, junk),
                incomplete := c.incomplete + [it]);
    LogDataValid(c.log, junk, it.task, false, it.flag, false, junk);
    assert ValidCd(d);
    WithTopValid(p, d);
    WithTop(p, d)
  }

  /** A finished record: one more entry of the task it came from, its bytes at the end of the queue, nothing else. */
  lemma {:induction false} LogTopAdds(p: seq<Cd>, data: seq<byte>, task: nat)
    requires ValidPath(p)
    ensures
      var q, n := LogTop(p, data, task), |p| - 1;
      var l, r := p[n].log, q[n].log;
      && |q| == |p| && q[..n] == p[..n] && q[n] == p[n].(log := r)
      && r.table == l.table + [Entry(|l.queue|, |data|, true, 0, 1, 0, false, task)] && r.queue == l.queue + data
      && r.generated && r.mode == l.mode && r.cursor == l.cursor && r.child == l.child
  {
    hide Valid;
  }

  /** With the repeated flag: one more of the same, or a new entry. */
  lemma {:induction false} LogAgainAdds(p: seq<Cd>, data: seq<byte>, task: nat)
    requires ValidPath(p) && p[|p| - 1].log.table != []
    ensures LogAgain(p, data, task).Some?
    ensures
      var q, n := LogAgain(p, data, task).value, |p| - 1;
      var l, r := p[n].log, q[n].log;
      var k := |l.table| - 1;
      var last := l.table[k];
      && |q| == |p| && q[..n] == p[..n] && q[n] == p[n].(log := r)
      && if last.isrepeated && last.length == |data| && last.completed && last.flag == 0 then
           r == l.(table := l.table[k := last.(counter := last.counter + 1)])
         else
           && r.table == l.table + [Entry(|l.queue|, |data|, true, 0, 1, 0, true, task)] && r.queue == l.queue + data
           && r.generated && r.mode == l.mode && r.cursor == l.cursor && r.child == l.child
  {
    hide Valid;
  }

  /** A request: an open entry of its length under its address, room in the queue, and a note behind the others. */
  lemma {:induction false} PostAdds(p: seq<Cd>, it: Incomplete, junk: seq<byte>)
    requires ValidPath(p) && it.flag != 0
    ensures
      var q, n := Post(p, it, junk), |p| - 1;
      var l, r := p[n].log, q[n].log;
      && |q| == |p| && q[..n] == p[..n] && q[n] == p[n].(log := r, incomplete := p[n].incomplete + [it])
      && r.table == l.table + [Entry(|l.queue|, |junk|, false, it.flag, 1, 0, false, it.task)]
      && r.queue == l.queue + junk
      && r.generated && r.mode == l.mode && r.cursor == l.cursor && r.child == l.child
  {
    hide Valid;
  }

  // ---- CD::ProbeAndLogData ----

  function FindFlag(s: seq<Incomplete>, flag: nat): (j: nat)
    ensures j <= |s|
    ensures j < |s| ==> s[j].flag == flag
    ensures forall i :: 0 <= i < j ==> s[i].flag != flag
  {
    if s == [] then 0
    else if s[0].flag == flag then 0
    else 1 + FindFlag(s[1..], flag)
  }

  predicate Holds(c: Cd, flag: nat)
  {
    FindFlag(c.incomplete, flag) < |c.incomplete|
  }

  /** The nearest level, going up from the current one, that has noted the request. */
  function Holder(p: seq<Cd>, flag: nat): (k: Option<nat>)
    ensures k.Some? ==> k.value < |p| && Holds(p[k.value], flag)
    ensures k.Some? ==> forall i :: k.value < i < |p| ==> !Holds(p[i], flag)
    ensures k.None? ==> forall i :: 0 <= i < |p| ==> !Holds(p[i], flag)
  {
    if p == [] then None
    else if Holds(Top(p), flag) then Some(|p| - 1)
    else Holder(p[..|p| - 1], flag)
  }

  function Remove<T>(s: seq<T>, j: nat): (r: seq<T>)
    requires j < |s|
    ensures |r| == |s| - 1 && (forall i :: 0 <= i < j ==> r[i] == s[i])
    ensures forall i :: j <= i < |r| ==> r[i] == s[i + 1]
  {
    s[..j] + s[j + 1..]
  }

  /** CommLog::ProbeAndLogData with its assertion on the length. */
  function Fill(l: Log, data: seq<byte>, flag: nat): (r: Option<Log>)
    requires Valid(l)
    ensures r.Some? ==> Valid(r.value)
  {
    assert LengthAgrees(l.table, flag, |data|) ==> Valid(ProbeAndLog(l, data, flag)) by {
      if LengthAgrees(l.table, flag, |data|) {
        ProbeAndLogFillsOne(l, data, flag);
      }
    }
    if LengthAgrees(l.table, flag, |data|) then Some(ProbeAndLog(l, data, flag)) else None
  }

  function FirstKid(kids: seq<Tree>, flag: nat): (k: nat)
    ensures k <= |kids|
    ensures k < |kids| ==> FirstFlag(kids[k].table, flag) < |kids[k].table|
    ensures forall i :: 0 <= i < k ==> FirstFlag(kids[i].table, flag) == |kids[i].table|
  {
    if kids == [] then 0
    else if FirstFlag(kids[0].table, flag) < |kids[0].table| then 0
    else 1 + FirstKid(kids[1..], flag)
  }

  /** CommLog::ProbeAndLogDataPacked on the packed children of one CD. */
  function FillKid(kids: seq<Tree>, data: seq<byte>, flag: nat): (r: Option<seq<Tree>>)
    requires forall i :: 0 <= i < |kids| ==> Valid(LogOfTree(kids[i]))
    ensures r.Some? ==> |r.value| == |kids| && forall i :: 0 <= i < |kids| ==> Valid(LogOfTree(r.value[i]))
  {
    var k := FirstKid(kids, flag);
    if k == |kids| then Some(kids)
    else
      var l :- Fill(LogOfTree(kids[k]), data, flag);
      assert LogOfTree(kids[k].(table := l.table, queue := l.queue)) == l;
      Some(kids[k := kids[k].(table := l.table, queue := l.queue)])
  }

  /** On the bytes of a child buffer this is the patch of PackFormat. */
  lemma {:induction false} FillKidPatches(t: Tree, data: seq<byte>, flag: nat)
    requires forall i :: 0 <= i < |t.kids| ==> Valid(LogOfTree(t.kids[i]))
    requires FillKid(t.kids, data, flag).Some?
    ensures Patchable(KidRecords(t), data, flag)
    ensures KidRecords(t.(kids := FillKid(t.kids, data, flag).value)) == PatchRecords(KidRecords(t), data, flag)
  {
    hide FirstFlag, KidRecords, ImageOf, Valid, ProbeAndLog, LengthAgrees, FirstKid, FirstRecord;
    var rs, k := KidRecords(t), FirstKid(t.kids, flag);
    FirstKidRecord(t, flag);
    var kids := FillKid(t.kids, data, flag).value;
    var u := t.(kids := kids);
    if k < |rs| {
      SameLog(t, k, data, flag);
      ImageWith(t.kids[k], kids[k].table, kids[k].queue);
    }
    forall i | 0 <= i < |rs|
      ensures KidRecords(u)[i] == PatchRecords(rs, data, flag)[i]
    {
      KidRecordAt(t, i);
      KidRecordAt(u, i);
    }
  }

  lemma {:induction false} FirstKidRecord(t: Tree, flag: nat)
    ensures FirstRecord(KidRecords(t), flag) == FirstKid(t.kids, flag)
  {
    hide FirstFlag, KidRecords, ImageOf;
    forall i | 0 <= i < |t.kids|
      ensures KidRecords(t)[i].img.table == t.kids[i].table
    {
      KidRecordAt(t, i);
    }
  }

  /** The log in the record and the log in the tree differ only in what a completion leaves alone. */
  lemma {:induction false} SameLog(t: Tree, k: nat, data: seq<byte>, flag: nat)
    requires k < |t.kids| && Valid(LogOfTree(t.kids[k])) && LengthAgrees(t.kids[k].table, flag, |data|)
    ensures
      var img := KidRecords(t)[k].img;
      && img.table == t.kids[k].table && Valid(LogOf(img))
      && var l := ProbeAndLog(LogOfTree(t.kids[k]), data, flag);
      CompleteImage(img, data, flag) == img.(table := l.table, queue := l.queue)
  {
    hide FirstFlag, KidRecords, ImageOf, Splice, Tiled;
    KidRecordAt(t, k);
  }

  lemma {:induction false} KidRecordAt(t: Tree, i: nat)
    requires i < |t.kids|
    ensures KidRecords(t)[i] == Packed(t.kids[i].id, ImageOf(t.kids[i]), t.kids[i].ptrs)
    ensures ImageOf(t.kids[i]).table == t.kids[i].table && ImageOf(t.kids[i]).queue == t.kids[i].queue
  {
  }

  lemma {:induction false} ImageWith(t: Tree, table: seq<Entry>, queue: seq<byte>)
    ensures ImageOf(t.(table := table, queue := queue)) == ImageOf(t).(table := table, queue := queue)
  {
    assert KidRecords(t.(table := table, queue := queue)) == KidRecords(t);
  }

  /** Searching the packed children of the CDs above level `n`, up to the first strict one. */
  function FillAbove(p: seq<Cd>, n: nat, data: seq<byte>, flag: nat): (r: Option<seq<Cd>>)
    requires ValidPath(p) && n < |p|
    ensures r.Some? ==> ValidPath(r.value) && SameNotes(p, r.value)
    decreases n
  {
    if n == 0 || !p[n - 1].relaxed then Some(p)
    else if FirstKid(p[n - 1].kids, flag) < |p[n - 1].kids| then
      assert ValidCd(p[n - 1]);
      var kids :- FillKid(p[n - 1].kids, data, flag);
      assert ValidCd(p[n - 1].(kids := kids));
      Some(p[n - 1 := p[n - 1].(kids := kids)])
    else FillAbove(p, n - 1, data, flag)
  }

  function FillPath(p: seq<Cd>, data: seq<byte>, flag: nat): (r: Option<seq<Cd>>)
    requires ValidPath(p)
    ensures r.Some? ==> ValidPath(r.value) && SameNotes(p, r.value)
  {
    var c := Top(p);
    assert ValidCd(c);
    if FirstFlag(c.log.table, flag) < |c.log.table| then
      var l :- Fill(c.log, data, flag);
      assert ValidCd(c.(log := l));
      WithTopValid(p, c.(log := l));
      Some(WithTop(p, c.(log := l)))
    else FillAbove(p, |p| - 1, data, flag)
  }

  /** The search goes up over relaxed CDs only, and changes the first packed child it finds. */
  lemma {:induction false} FillAboveMeans(p: seq<Cd>, n: nat, data: seq<byte>, flag: nat, m: nat)
    requires ValidPath(p) && n < |p| && FillAbove(p, n, data, flag).Some? && m < n
    requires forall i :: m < i < n ==> p[i].relaxed && FirstKid(p[i].kids, flag) == |p[i].kids|
    ensures !p[m].relaxed ==> FillAbove(p, n, data, flag).value == p
    ensures
      p[m].relaxed && FirstKid(p[m].kids, flag) < |p[m].kids| ==>
        && ValidCd(p[m]) && FillKid(p[m].kids, data, flag).Some?
        && FillAbove(p, n, data, flag).value == p[m := p[m].(kids := FillKid(p[m].kids, data, flag).value)]
    ensures
      m == 0 && p[m].relaxed && FirstKid(p[m].kids, flag) == |p[m].kids| ==> FillAbove(p, n, data, flag).value == p
    decreases n
  {
    hide Valid, FillKid, FirstKid;
    assert ValidCd(p[m]);
    if m < n - 1 {
      FillAboveMeans(p, n - 1, data, flag, m);
    }
  }

  /** In one packed child: the first entry with the flag is finished, and nothing else changes. */
  lemma {:induction false} FillKidMeans(kids: seq<Tree>, data: seq<byte>, flag: nat, k: nat, i: nat)
    requires forall j :: 0 <= j < |kids| ==> Valid(LogOfTree(kids[j]))
    requires FillKid(kids, data, flag).Some? && k < |kids| && i < |kids[k].table| && kids[k].table[i].flag == flag
    requires forall j :: 0 <= j < i ==> kids[k].table[j].flag != flag
    requires forall j, h :: 0 <= j < k && 0 <= h < |kids[j].table| ==> kids[j].table[h].flag != flag
    ensures
      var t, e := kids[k], kids[k].table[i];
      && e.length == |data| && e.pos + |data| <= |t.queue|
      && FillKid(kids, data, flag).value
         == kids[k := t.(table := t.table[i := e.(completed := true)],
                         queue := t.queue[..e.pos] + data + t.queue[e.pos + |data|..])]
  {
    hide Tiled;
    var l := LogOfTree(kids[k]);
    assert FirstFlag(kids[k].table, flag) == i;
    assert FirstKid(kids, flag) == k by {
      forall j | 0 <= j < k
        ensures FirstFlag(kids[j].table, flag) == |kids[j].table|
      {
      }
    }
    TiledBounds(l.table, |l.queue|, i);
  }

  /** The request's payload goes into the log, a completion event is logged, the note is dropped. */
  function Complete(p: seq<Cd>, flag: nat): (r: Option<seq<Cd>>)
    requires ValidPath(p)
    ensures r.Some? ==> ValidPath(r.value) && SameCds(p, r.value)
  {
    // a request nobody has noted ends in "Wrong control flow"
    var k :- Holder(p, flag);
    var j := FindFlag(p[k].incomplete, flag);
    var it := p[k].incomplete[j];
    var q :- if it.intra then Some(p) else FillPath(p, it.arrives, flag);
    var r := LogTop(q, [], it.task);
    assert ValidCd(r[k]);
    Some(r[k := r[k].(incomplete := Remove(r[k].incomplete, j))])
  }

  /** The data goes into the current CD's log if it has an entry at that address, else above. */
  lemma {:induction false} FillPathMeans(p: seq<Cd>, data: seq<byte>, flag: nat)
    requires ValidPath(p) && FillPath(p, data, flag).Some?
    ensures
      var q, n := FillPath(p, data, flag).value, |p| - 1;
      var l := p[n].log;
      var at := FirstFlag(l.table, flag);
      && (at < |l.table| ==>
            var e := l.table[at];
            && e.length == |data| && e.pos + e.length <= |l.queue|
            && q == p[n := p[n].(log := l.(table := l.table[at := e.(completed := true)],
                                           queue := l.queue[..e.pos] + data + l.queue[e.pos + e.length..]))])
      && (at == |l.table| ==>
            && Some(q) == FillAbove(p, n, data, flag) && forall i :: 0 <= i <= n ==> q[i].log == p[i].log)
  {
    hide Tiled, FirstFlag, FillAbove;
    var n := |p| - 1;
    var l := p[n].log;
    assert ValidCd(p[n]);
    if FirstFlag(l.table, flag) < |l.table| {
      TiledBounds(l.table, |l.queue|, FirstFlag(l.table, flag));
    } else {
      FillAboveSameLogs(p, n, data, flag);
    }
  }

  lemma {:induction false} CompleteIs(p: seq<Cd>, flag: nat, k: nat, j: nat)
    requires ValidPath(p) && Complete(p, flag).Some? && k < |p|
    requires Holder(p, flag) == Some(k) && FindFlag(p[k].incomplete, flag) == j
    ensures
      var it, q := p[k].incomplete[j], Complete(p, flag).value;
      && |q| == |p|
      && if it.intra then
           forall i :: 0 <= i < |p| ==> q[i].log == LogTop(p, [], it.task)[i].log && q[i].kids == p[i].kids
         else
           && FillPath(p, it.arrives, flag).Some?
           && var f := FillPath(p, it.arrives, flag).value;
           forall i :: 0 <= i < |p| ==> q[i].log == LogTop(f, [], it.task)[i].log && q[i].kids == f[i].kids
  {
    hide Valid, Holder, FindFlag, FillPath;
  }

  /**
    A completion, for the first note of the nearest CD that has one: an event of the note's task is logged in the
    current CD, and the request's data goes to the first open or finished entry at its address in the current CD's
    log; for a message inside the CD, or if there is no such entry, that log only gets the event.
   */
  lemma {:induction false} CompleteMeans(p: seq<Cd>, flag: nat, k: nat, j: nat, l: Log, r: Log, it: Incomplete)
    requires ValidPath(p) && Complete(p, flag).Some? && k < |p| && j < |p[k].incomplete|
    requires p[k].incomplete[j].flag == flag && forall i :: 0 <= i < j ==> p[k].incomplete[i].flag != flag
    requires forall i, h :: k < i < |p| && 0 <= h < |p[i].incomplete| ==> p[i].incomplete[h].flag != flag
    requires l == Top(p).log && r == Top(Complete(p, flag).value).log && it == p[k].incomplete[j]
    ensures |r.table| == |l.table| + 1 && |r.queue| == |l.queue|
    ensures r.table[|l.table|] == Entry(|l.queue|, 0, true, 0, 1, 0, false, it.task)
    ensures
      var at := FirstFlag(l.table, flag);
      if it.intra || at == |l.table| then r.table[..|l.table|] == l.table && r.queue == l.queue
      else
        var e := l.table[at];
        && e.length == |it.arrives| && e.pos + e.length <= |l.queue|
        && r.table[..|l.table|] == l.table[at := e.(completed := true)]
        && r.queue == l.queue[..e.pos] + it.arrives + l.queue[e.pos + e.length..]
  {
    hide Valid, ValidCd, FirstFlag, FillAbove, LogTop, Holder, FindFlag, FillPath, Complete;
    HolderIs(p, flag, k, j);
    CompleteIs(p, flag, k, j);
    var n := |p| - 1;
    var f := if it.intra then p else FillPath(p, it.arrives, flag).value;
    LogTopAdds(f, [], it.task);
    assert f[n].log.queue + [] == f[n].log.queue;
    if !it.intra {
      FillPathMeans(p, it.arrives, flag);
    }
  }

  /** And the packed children are searched exactly if the current CD's log has no such entry. */
  lemma {:induction false} CompleteAbove(p: seq<Cd>, flag: nat, k: nat, j: nat)
    requires ValidPath(p) && Complete(p, flag).Some? && k < |p| && j < |p[k].incomplete|
    requires p[k].incomplete[j].flag == flag && forall i :: 0 <= i < j ==> p[k].incomplete[i].flag != flag
    requires forall i, h :: k < i < |p| && 0 <= h < |p[i].incomplete| ==> p[i].incomplete[h].flag != flag
    ensures
      var q, n, it := Complete(p, flag).value, |p| - 1, p[k].incomplete[j];
      var own := FirstFlag(p[n].log.table, flag) < |p[n].log.table|;
      && (it.intra || own ==> forall i :: 0 <= i <= n ==> q[i].kids == p[i].kids)
      && (!it.intra && !own ==>
            && FillAbove(p, n, it.arrives, flag).Some?
            && forall i :: 0 <= i <= n ==> q[i].kids == FillAbove(p, n, it.arrives, flag).value[i].kids)
  {
    hide Valid, ValidCd, FirstFlag, FillAbove, LogTop, Holder, FindFlag, FillPath, Complete;
    HolderIs(p, flag, k, j);
    CompleteIs(p, flag, k, j);
    if !p[k].incomplete[j].intra {
      FillPathMeans(p, p[k].incomplete[j].arrives, flag);
    }
  }

  lemma {:induction false} HolderIs(p: seq<Cd>, flag: nat, k: nat, j: nat)
    requires k < |p| && j < |p[k].incomplete| && p[k].incomplete[j].flag == flag
    requires forall i :: 0 <= i < j ==> p[k].incomplete[i].flag != flag
    requires forall i, h :: k < i < |p| && 0 <= h < |p[i].incomplete| ==> p[i].incomplete[h].flag != flag
    ensures Holder(p, flag) == Some(k) && FindFlag(p[k].incomplete, flag) == j
  {
    hide Holder, FindFlag;
    assert FindFlag(p[k].incomplete, flag) == j;
    forall i | k < i < |p|
      ensures !Holds(p[i], flag)
    {
    }
  }

  lemma {:induction false} FillAboveSameLogs(p: seq<Cd>, n: nat, data: seq<byte>, flag: nat)
    requires ValidPath(p) && n < |p| && FillAbove(p, n, data, flag).Some?
    ensures forall i :: 0 <= i < |p| ==> FillAbove(p, n, data, flag).value[i].log == p[i].log
    decreases n
  {
    hide Valid, FillKid, FirstKid;
    if n > 0 && p[n - 1].relaxed && FirstKid(p[n - 1].kids, flag) == |p[n - 1].kids| {
      FillAboveSameLogs(p, n - 1, data, flag);
    }
  }

  function CompleteAll(p: seq<Cd>, flags: seq<nat>): (r: Option<seq<Cd>>)
    requires ValidPath(p)
    ensures r.Some? ==> ValidPath(r.value) && SameCds(p, r.value)
    decreases |flags|
  {
    if flags == [] then Some(p)
    else
      var q :- Complete(p, flags[0]);
      CompleteAll(q, flags[1..])
  }

  /** Completions finish entries and add events; what was logged stays as it was otherwise. */
  lemma {:induction false} CompletesKeep(p: seq<Cd>, flags: seq<nat>)
    requires ValidPath(p) && CompleteAll(p, flags).Some?
    ensures
      var t, u := Top(p).log.table, Top(CompleteAll(p, flags).value).log.table;
      && |u| == |t| + |flags|
      && (forall i :: 0 <= i < |t| ==> u[i] == t[i].(completed := u[i].completed))
      && (forall i :: 0 <= i < |t| && t[i].completed ==> u[i].completed)
      && (forall i :: |t| <= i < |u| ==> u[i].length == 0 && u[i].completed && u[i].flag == 0 && !u[i].isrepeated)
    decreases |flags|
  {
    hide Valid, Complete;
    if flags != [] {
      CompleteKeeps(p, flags[0]);
      CompletesKeep(Complete(p, flags[0]).value, flags[1..]);
    }
  }

  lemma {:induction false} CompleteKeeps(p: seq<Cd>, flag: nat)
    requires ValidPath(p) && Complete(p, flag).Some?
    ensures
      var t, u := Top(p).log.table, Top(Complete(p, flag).value).log.table;
      && |u| == |t| + 1
      && (forall i :: 0 <= i < |t| ==> u[i] == t[i].(completed := u[i].completed))
      && (forall i :: 0 <= i < |t| && t[i].completed ==> u[i].completed)
      && u[|t|].length == 0 && u[|t|].completed && u[|t|].flag == 0 && !u[|t|].isrepeated
  {
    hide Valid, ValidCd, FirstFlag, FillAbove, LogTop, Holder, FindFlag, FillPath, Complete;
    var k := HeldBy(p, flag);
    var j := FindFlag(p[k].incomplete, flag);
    CompleteIs(p, flag, k, j);
    var it := p[k].incomplete[j];
    var f := if it.intra then p else FillPath(p, it.arrives, flag).value;
    LogTopAdds(f, [], it.task);
    if !it.intra {
      FillPathMeans(p, it.arrives, flag);
    }
  }

  lemma {:induction false} HeldBy(p: seq<Cd>, flag: nat) returns (k: nat)
    requires ValidPath(p) && Complete(p, flag).Some?
    ensures k < |p| && Holder(p, flag) == Some(k) && FindFlag(p[k].incomplete, flag) < |p[k].incomplete|
  {
    hide Valid, FillPath, LogTop, FindFlag, Holder;
    k := Holder(p, flag).value;
  }

  // ---- CD::CompleteLogs at the end of a relaxed CD in execution mode ----

  datatype Alloc = Alloc(ptrs: Ptrs, tableCap: nat, queueCap: nat, childCap: nat)

  function TreeOf(c: Cd, a: Alloc): Tree
  {
    Tree(c.id, a.ptrs, c.log.table, a.tableCap, c.log.queue, a.queueCap, a.childCap, c.kids)
  }

  /** The finished CD packs its log into its parent's and hands over what is still outstanding. */
  function Handover(p: seq<Cd>, a: Alloc): seq<Cd>
    requires |p| >= 2
  {
    var c := Top(p);
    var parent := p[|p| - 2];
    var push := c.log.generated && parent.relaxed;
    var log := if push
               then parent.log.(generated := true,
                                mode := if c.log.mode == GenerateLog then GenerateLog else parent.log.mode)
               else parent.log;
    p[..|p| - 2] + [parent.(log := log,
                            kids := if push then parent.kids + [TreeOf(c, a)] else parent.kids,
                            incomplete := parent.incomplete + c.incomplete)]
  }

  /** What the parent has afterwards, field by field; nothing above it changes. */
  lemma {:induction false} HandoverMeans(p: seq<Cd>, a: Alloc)
    requires |p| >= 2
    ensures
      var q, n := Handover(p, a), |p| - 2;
      var c, d, e := p[n + 1], p[n], q[n];
      && |q| == n + 1 && q[..n] == p[..n]
      && e.id == d.id && e.relaxed == d.relaxed && e.incomplete == d.incomplete + c.incomplete
      && e.log.table == d.log.table && e.log.queue == d.log.queue && e.log.cursor == d.log.cursor
      && if c.log.generated && d.relaxed then
           && e.log.generated && |e.kids| == |d.kids| + 1 && e.kids[..|d.kids|] == d.kids
           && (c.log.mode == GenerateLog ==> e.log.mode == GenerateLog)
           && (c.log.mode == ReplayLog ==> e.log.mode == d.log.mode)
           && var t := e.kids[|d.kids|];
           && t.id == c.id && t.ptrs == a.ptrs && t.table == c.log.table && t.queue == c.log.queue && t.kids == c.kids
           && t.tableCap == a.tableCap && t.queueCap == a.queueCap && t.childCap == a.childCap
         else e.kids == d.kids && e.log == d.log
  {
  }

  lemma {:induction false} HandoverValid(p: seq<Cd>, a: Alloc)
    requires |p| >= 2 && ValidPath(p)
    ensures ValidPath(Handover(p, a))
  {
    hide Valid;
    var c := Top(p);
    assert ValidCd(c) && ValidCd(p[|p| - 2]);
    LogOfTreeValid(c, a);
    ModeIrrelevant(p[|p| - 2].log, Handover(p, a)[|p| - 2].log);
  }

  /** On bytes: the parent's child buffer grows by the child's record, or stays as it is. */
  lemma {:induction false} HandoverBytes(p: seq<Cd>, a: Alloc, b: Alloc)
    requires |p| >= 2
    ensures
      var c, parent := Top(p), p[|p| - 2];
      var before := PackAll(KidRecords(TreeOf(parent, b)));
      PackAll(KidRecords(TreeOf(Top(Handover(p, a)), b))) ==
        if c.log.generated && parent.relaxed then before + Pack(Packed(c.id, ImageOf(TreeOf(c, a)), a.ptrs)) else before
  {
    hide PackAll, Pack, ImageOf;
    var c, parent := Top(p), p[|p| - 2];
    var t, u := TreeOf(parent, b), TreeOf(Top(Handover(p, a)), b);
    if c.log.generated && parent.relaxed {
      var r := Packed(c.id, ImageOf(TreeOf(c, a)), a.ptrs);
      assert KidRecords(u) == KidRecords(t) + [r];
      PackAllAppend(KidRecords(t), r);
    } else {
      assert KidRecords(u) == KidRecords(t);
    }
  }

  lemma LogOfTreeValid(c: Cd, a: Alloc)
    requires Valid(c.log)
    ensures Valid(LogOfTree(TreeOf(c, a)))
  {
  }

  lemma ModeIrrelevant(l: Log, r: Log)
    requires Valid(l) && r == l.(mode := r.mode, generated := r.generated)
    ensures Valid(r)
  {
  }

  /** What completing a request does to the lists of outstanding requests: one note goes. */
  lemma {:induction false} CompleteDropsNote(p: seq<Cd>, flag: nat)
    requires ValidPath(p) && Complete(p, flag).Some?
    ensures
      var q := Complete(p, flag).value;
      && Holder(p, flag).Some?
      && var k := Holder(p, flag).value;
      && q[k].incomplete == Remove(p[k].incomplete, FindFlag(p[k].incomplete, flag))
      && (forall i :: 0 <= i < |p| && i != k ==> q[i].incomplete == p[i].incomplete)
  {
    hide Valid, FillPath, Holder, FindFlag, LogTop;
  }
}
