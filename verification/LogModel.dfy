/**
  The value of a communication log: what its buffers hold up to their cursors, and what each
  operation of cd::logging::CommLog does to that value. The class in CommLog.dfy refines it.
 */
module LogModel {
  import opened Bytes

  /** struct LogTableElement: a slice of the queue plus bookkeeping. */
  datatype Entry = Entry(pos: nat, length: nat, completed: bool, flag: nat,
                         counter: nat, reexec: nat, isrepeated: bool, task: nat)

  datatype Mode = GenerateLog | ReplayLog

  /** Return codes; Aborted stands for ERROR_MESSAGE, which prints and then asserts false. */
  datatype Err = OK | ModeFlip | ChildLogNotFound | Missing | Error | Aborted

  datatype Log = Log(mode: Mode, table: seq<Entry>, queue: seq<byte>, child: seq<byte>,
                     cursor: nat, generated: bool)

  const EMPTY := Log(GenerateLog, [], [], [], 0, false)

  /** The entries cut [0, n) into consecutive slices. */
  ghost predicate Tiled(t: seq<Entry>, n: nat)
  {
    if t == [] then n == 0
    else
      var e := t[|t| - 1];
      e.pos + e.length == n && Tiled(t[..|t| - 1], e.pos)
  }

  /** Counters as recording and replaying leave them. */
  ghost predicate Live(e: Entry)
  {
    && e.reexec < e.counter
    && (!e.isrepeated ==> e.counter == 1)
  }

  ghost predicate Valid(l: Log)
  {
    && Tiled(l.table, |l.queue|)
    && (forall i :: 0 <= i < |l.table| ==> Live(l.table[i]))
    && l.cursor <= |l.table|
  }

  lemma {:induction false} TiledBounds(t: seq<Entry>, n: nat, i: nat)
    requires Tiled(t, n) && i < |t|
    ensures t[i].pos + t[i].length <= n
    ensures i + 1 < |t| ==> t[i].pos + t[i].length == t[i + 1].pos
    ensures i + 1 == |t| ==> t[i].pos + t[i].length == n
    ensures i == 0 ==> t[i].pos == 0
    decreases |t|
  {
    if i < |t| - 1 {
      TiledBounds(t[..|t| - 1], t[|t| - 1].pos, i);
    } else if i == 0 {
      assert t[..0] == [];
    }
  }

  lemma {:induction false} TiledDisjoint(t: seq<Entry>, n: nat, i: nat, j: nat)
    requires Tiled(t, n) && i < j < |t|
    ensures t[i].pos + t[i].length <= t[j].pos
    decreases |t|
  {
    if j < |t| - 1 {
      TiledDisjoint(t[..|t| - 1], t[|t| - 1].pos, i, j);
    } else {
      TiledBounds(t[..j], t[j].pos, i);
      assert t[..j][i] == t[i];
    }
  }

  /** No gap and no overlap: every queue byte belongs to exactly one entry. */
  lemma {:induction false} TilesExactly(t: seq<Entry>, n: nat, p: nat) returns (i: nat)
    requires Tiled(t, n) && p < n
    ensures i < |t| && t[i].pos <= p < t[i].pos + t[i].length
    ensures forall j :: 0 <= j < |t| && t[j].pos <= p < t[j].pos + t[j].length ==> j == i
    decreases |t|
  {
    var last := |t| - 1;
    if t[last].pos <= p {
      i := last;
    } else {
      i := TilesExactly(t[..last], t[last].pos, p);
      assert t[..last][i] == t[i];
    }
    forall j | 0 <= j < |t| && t[j].pos <= p < t[j].pos + t[j].length
      ensures j == i
    {
      if i < j {
        TiledDisjoint(t, n, i, j);
      } else if j < i {
        TiledDisjoint(t, n, j, i);
      }
    }
  }

  /** Only positions and lengths matter to the tiling. */
  lemma {:induction false} TiledSame(t: seq<Entry>, u: seq<Entry>, n: nat)
    requires Tiled(t, n) && |t| == |u|
    requires forall i :: 0 <= i < |t| ==> t[i].pos == u[i].pos && t[i].length == u[i].length
    ensures Tiled(u, n)
  {
    if t != [] {
      var m := |t| - 1;
      assert forall i :: 0 <= i < m ==> t[..m][i] == t[i] && u[..m][i] == u[i];
      TiledSame(t[..m], u[..m], t[m].pos);
    }
  }

  /** The bytes an entry stands for. */
  function Payload(l: Log, i: nat): (s: seq<byte>)
    requires Valid(l) && i < |l.table|
    ensures |s| == l.table[i].length
  {
    TiledBounds(l.table, |l.queue|, i);
    Slice(l.queue, l.table[i].pos, l.table[i].length)
  }

  /** The log as an unbounded list of records that own their payloads. */
  datatype Record = Record(payload: seq<byte>, completed: bool, flag: nat,
                           counter: nat, reexec: nat, isrepeated: bool, task: nat)

  function RecordAt(l: Log, i: nat): Record
    requires Valid(l) && i < |l.table|
  {
    var e := l.table[i];
    Record(Payload(l, i), e.completed, e.flag, e.counter, e.reexec, e.isrepeated, e.task)
  }

  function View(l: Log): (v: seq<Record>)
    requires Valid(l)
    ensures |v| == |l.table|
    ensures forall i :: 0 <= i < |v| ==> v[i] == RecordAt(l, i)
  {
    seq(|l.table|, i requires 0 <= i < |l.table| => RecordAt(l, i))
  }

  // ---- CommLog::LogData ----

  predicate Matches(e: Entry, length: nat, completed: bool, flag: nat)
  {
    e.isrepeated && e.length == length && e.completed == completed && e.flag == flag
  }

  /** CommLog::FoundRepeatedEntry reads the entry before the cursor; the payload is not compared. */
  predicate FoundRepeated(l: Log, length: nat, completed: bool, flag: nat)
    requires l.table != []
  {
    Matches(l.table[|l.table| - 1], length, completed, flag)
  }

  /** `data` is the caller's buffer; `junk` is what a slot reserved for an unfinished operation holds. */
  function LogData(l: Log, data: seq<byte>, task: nat, completed: bool, flag: nat, isrepeated: bool,
                   junk: seq<byte>): Log
    requires isrepeated ==> l.table != []
  {
    if isrepeated && FoundRepeated(l, |data|, completed, flag) then
      var last := |l.table| - 1;
      l.(table := l.table[last := l.table[last].(counter := l.table[last].counter + 1)])
    else
      l.(table := l.table + [Entry(|l.queue|, |data|, completed, flag, 1, 0, isrepeated, task)],
         queue := l.queue + (if completed then data else junk),
         generated := true)
  }

  lemma {:induction false} LogDataValid(l: Log, data: seq<byte>, task: nat, completed: bool, flag: nat,
                                        isrepeated: bool, junk: seq<byte>)
    requires Valid(l) && |junk| == |data|
    requires isrepeated ==> l.table != []
    ensures Valid(LogData(l, data, task, completed, flag, isrepeated, junk))
  {
    var r := LogData(l, data, task, completed, flag, isrepeated, junk);
    if isrepeated && FoundRepeated(l, |data|, completed, flag) {
      TiledSame(l.table, r.table, |l.queue|);
    } else {
      assert r.table[..|r.table| - 1] == l.table;
    }
  }

  /** Payloads do not move when the queue grows at its end. */
  lemma {:induction false} PayloadGrow(l: Log, r: Log, i: nat)
    requires Valid(l) && Valid(r) && i < |l.table| <= |r.table|
    requires l.queue <= r.queue && l.table[i].pos == r.table[i].pos && l.table[i].length == r.table[i].length
    ensures Payload(r, i) == Payload(l, i)
  {
    TiledBounds(l.table, |l.queue|, i);
  }

  /** On records, LogData appends one record, or bumps the last record's counter and nothing else. */
  lemma {:induction false} LogDataAppends(l: Log, data: seq<byte>, task: nat, completed: bool, flag: nat,
                                          isrepeated: bool, junk: seq<byte>)
    requires Valid(l) && |junk| == |data|
    requires isrepeated ==> l.table != []
    ensures Valid(LogData(l, data, task, completed, flag, isrepeated, junk))
    ensures
      var r := LogData(l, data, task, completed, flag, isrepeated, junk);
      if isrepeated && FoundRepeated(l, |data|, completed, flag) then
        var last := |l.table| - 1;
        View(r) == View(l)[last := View(l)[last].(counter := View(l)[last].counter + 1)]
      else
        View(r) == View(l) + [Record(if completed then data else junk, completed, flag, 1, 0, isrepeated, task)]
  {
    var r := LogData(l, data, task, completed, flag, isrepeated, junk);
    LogDataValid(l, data, task, completed, flag, isrepeated, junk);
    var appended := !(isrepeated && FoundRepeated(l, |data|, completed, flag));
    assert appended ==> Payload(r, |l.table|) == if completed then data else junk;
    hide Tiled, Valid, Payload;
    forall i | 0 <= i < |l.table|
      ensures Payload(r, i) == Payload(l, i)
    {
      PayloadGrow(l, r, i);
    }
  }

  // ---- CommLog::ProbeAndLogData ----

  /** The first entry with this flag, or |t|. */
  function FirstFlag(t: seq<Entry>, flag: nat): (i: nat)
    ensures i <= |t|
    ensures i < |t| ==> t[i].flag == flag
    ensures forall j :: 0 <= j < i ==> t[j].flag != flag
  {
    if t == [] then 0
    else if t[0].flag == flag then 0
    else 1 + FirstFlag(t[1..], flag)
  }

  /** The assertion on the length that was reserved by Isend/Irecv. */
  predicate LengthAgrees(t: seq<Entry>, flag: nat, length: nat)
  {
    var i := FirstFlag(t, flag);
    i < |t| ==> t[i].length == length
  }

  function ProbeAndLog(l: Log, data: seq<byte>, flag: nat): Log
    requires Valid(l) && LengthAgrees(l.table, flag, |data|)
  {
    var i := FirstFlag(l.table, flag);
    if i == |l.table| then l
    else
      TiledBounds(l.table, |l.queue|, i);
      l.(table := l.table[i := l.table[i].(completed := true)],
         queue := Splice(l.queue, l.table[i].pos, data))
  }

  lemma {:induction false} ProbeAndLogPayload(l: Log, data: seq<byte>, flag: nat, j: nat)
    requires Valid(l) && LengthAgrees(l.table, flag, |data|)
    requires FirstFlag(l.table, flag) < |l.table| && j < |l.table|
    ensures Valid(ProbeAndLog(l, data, flag))
    ensures Payload(ProbeAndLog(l, data, flag), j)
         == if j == FirstFlag(l.table, flag) then data else Payload(l, j)
  {
    hide FirstFlag, Splice, Slice;
    var i := FirstFlag(l.table, flag);
    TiledSame(l.table, ProbeAndLog(l, data, flag).table, |l.queue|);
    TiledBounds(l.table, |l.queue|, i);
    TiledBounds(l.table, |l.queue|, j);
    if j == i {
      SliceSplice(l.queue, l.table[i].pos, data);
    } else {
      TiledDisjoint(l.table, |l.queue|, if i < j then i else j, if i < j then j else i);
      SpliceElsewhere(l.queue, l.table[i].pos, data, l.table[j].pos, l.table[j].length);
    }
  }

  /** Filling a reserved slot late changes that record and no other payload. */
  lemma {:induction false} ProbeAndLogFillsOne(l: Log, data: seq<byte>, flag: nat)
    requires Valid(l) && LengthAgrees(l.table, flag, |data|)
    ensures Valid(ProbeAndLog(l, data, flag))
    ensures
      var i := FirstFlag(l.table, flag);
      View(ProbeAndLog(l, data, flag)) ==
      if i == |l.table| then View(l) else View(l)[i := View(l)[i].(completed := true, payload := data)]
  {
    hide Tiled, Splice, Slice, Payload, FirstFlag;
    var i := FirstFlag(l.table, flag);
    if i < |l.table| {
      ProbeAndLogPayload(l, data, flag, i);
      forall j | 0 <= j < |l.table|
        ensures Payload(ProbeAndLog(l, data, flag), j) == if j == i then data else Payload(l, j)
      {
        ProbeAndLogPayload(l, data, flag, j);
      }
    }
  }

  // ---- CommLog::ReInit, ReadData, ProbeData, Reset ----

  /** The re-execution counters are left as they are. */
  function ReInit(l: Log): Log
  {
    l.(mode := ReplayLog, cursor := 0)
  }

  function Reset(l: Log): Log
  {
    Log(GenerateLog, [], [], [], 0, false)
  }

  /** One read of the entry under the cursor. */
  function Advance(l: Log): Log
    requires l.cursor < |l.table|
  {
    var e := l.table[l.cursor];
    if e.isrepeated then
      if e.reexec + 1 == e.counter
      then l.(table := l.table[l.cursor := e.(reexec := 0)], cursor := l.cursor + 1)
      else l.(table := l.table[l.cursor := e.(reexec := e.reexec + 1)])
    else l.(cursor := l.cursor + 1)
  }

  /** The checks shared by ReadData and ProbeData; they differ in the answer for an unfinished entry. */
  function Check(l: Log, length: nat, unfinished: Err): Err
    requires l.cursor <= |l.table|
  {
    if l.cursor == |l.table| then ModeFlip
    else if l.table[l.cursor].length != length then Aborted
    else if !l.table[l.cursor].completed then unfinished
    else OK
  }

  function After(l: Log, err: Err): Log
    requires err == OK ==> l.cursor < |l.table|
  {
    match err
    case OK => Advance(l)
    case ModeFlip => l.(mode := GenerateLog)
    case _ => l
  }

  lemma AdvanceValid(l: Log)
    requires Valid(l) && l.cursor < |l.table|
    ensures Valid(Advance(l))
    ensures View(Advance(l)) == View(l)[l.cursor := View(l)[l.cursor].(reexec := Advance(l).table[l.cursor].reexec)]
    ensures forall i :: 0 <= i < |l.table| ==> Payload(Advance(l), i) == Payload(l, i)
  {
    hide Tiled, Slice;
    TiledSame(l.table, Advance(l).table, |l.queue|);
  }
}
