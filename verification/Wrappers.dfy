/** The MPI wrappers of a relaxed CD: what they log while recording, and what they read while replaying. */
module Wrappers {
  import opened Bytes
  import opened LogModel
  import opened PackFormat
  import opened Replay
  import opened CdLogs

  /** Send stands for every call that logs a bare event, Recv for every call that logs one payload
      (Recv, Bcast, Allreduce); requests are named by their addresses. */
  datatype Call =
    | Send
    | Recv(length: nat)
    | Sendrecv(length: nat)
    | Isend(req: nat, intra: bool)
    | Irecv(req: nat, length: nat, intra: bool)
    | Test(req: nat)
    | Testall(reqs: seq<nat>)
    | Testany(reqs: seq<nat>)
    | Waitall(reqs: seq<nat>)
    | Waitany(reqs: seq<nat>)
    | Waitsome(reqs: seq<nat>)

  /** What MPI answers, at once or, for an Irecv, when its request completes; and what happens to lie in a
      reserved queue slot. */
  datatype Mpi = Mpi(data: seq<byte>, flag: bool, index: nat, indices: seq<nat>, junk: seq<byte>, task: nat)

  datatype Output =
    | NoOutput
    | Untouched   // the caller's buffer keeps what it had
    | Payload(bytes: seq<byte>)
    | Flag(flag: nat)
    | FlagIndex(flag: nat, index: nat)
    | Index(index: nat)
    | Indices(count: nat, raw: seq<byte>)

  /** Answers that the MPI standard allows for the call, with the caller's int in 32 bits. */
  ghost predicate Legal(c: Call, m: Mpi)
  {
    match c
    case Recv(n) => |m.data| == n
    case Sendrecv(n) => |m.data| == n
    case Isend(f, intra) => f != 0 && m.junk == []
    case Irecv(f, n, intra) => f != 0 && |m.junk| == |m.data| == (if intra then 0 else n)
    case Testany(fs) => m.flag ==> m.index < |fs| && m.index < U32
    case Waitall(fs) => fs != []
    case Waitany(fs) => m.index < |fs| && m.index < U32
    case Waitsome(fs) => |m.indices| < U32 && forall i :: 0 <= i < |m.indices| ==> m.indices[i] < |fs|
    case _ => true
  }

  /** For every call MPI has a possible answer; some calls take any. */
  lemma {:induction false} SomeAnswer(c: Call, data: seq<byte>, m: Mpi) returns (n: Mpi)
    requires c.Isend? ==> c.req != 0
    requires c.Irecv? ==> c.req != 0
    requires c.Waitall? || c.Waitany? ==> c.reqs != []
    requires c.Recv? || c.Sendrecv? ==> |data| == c.length
    requires c.Irecv? ==> |data| == if c.intra then 0 else c.length
    ensures Legal(c, n) && (c.Recv? || c.Sendrecv? || c.Irecv? ==> n.data == data)
    ensures c.Send? || c.Test? || c.Testall? ==> Legal(c, m)
  {
    n := Mpi(data, false, 0, [], if c.Irecv? then data else [], 0);
  }

  function EncInts(xs: seq<nat>): (s: seq<byte>)
    ensures |s| == INT * |xs|
  {
    if xs == [] then [] else Int(xs[0]) + EncInts(xs[1..])
  }

  function Pick(fs: seq<nat>, indices: seq<nat>): (r: seq<nat>)
    requires forall i :: 0 <= i < |indices| ==> indices[i] < |fs|
    ensures |r| == |indices|
  {
    seq(|indices|, i requires 0 <= i < |indices| => fs[indices[i]])
  }

  // ---- kRelaxedCDGen ----

  /** MPI is called and its answer is logged. None: the run ends in an assertion. */
  function Gen(p: seq<Cd>, c: Call, m: Mpi): (r: Option<seq<Cd>>)
    requires ValidPath(p) && Legal(c, m)
    ensures r.Some? ==> ValidPath(r.value) && SameCds(p, r.value)
  {
    match c
    case Send => Some(LogTop(p, [], m.task))
    case Recv(_) => Some(LogTop(p, m.data, m.task))
    case Sendrecv(_) => Some(LogTop(LogTop(p, [], m.task), m.data, m.task))
    case Isend(f, intra) => Some(Post(p, Incomplete(f, [], false, intra, m.task), m.junk))
    case Irecv(f, _, intra) => Some(Post(p, Incomplete(f, m.data, true, intra, m.task), m.junk))
    case Test(f) => GenTest(p, [f], m)
    case Testall(fs) => GenTest(p, fs, m)
    case Testany(fs) => GenTestany(p, fs, m)
    case Waitall(fs) => CompleteAll(p, fs)
    case Waitany(fs) => Complete(LogTop(p, Int(m.index), 0), fs[m.index])
    case Waitsome(fs) => GenWaitsome(p, fs, m)
  }

  function GenTestany(p: seq<Cd>, fs: seq<nat>, m: Mpi): (r: Option<seq<Cd>>)
    requires ValidPath(p) && (m.flag ==> m.index < |fs|)
    ensures r.Some? ==> ValidPath(r.value) && SameCds(p, r.value)
  {
    if m.flag then Complete(LogTop(LogTop(p, Int(1), 0), Int(m.index), 0), fs[m.index])
    else LogAgain(p, Int(0), 0)
  }

  function GenWaitsome(p: seq<Cd>, fs: seq<nat>, m: Mpi): (r: Option<seq<Cd>>)
    requires ValidPath(p) && forall i :: 0 <= i < |m.indices| ==> m.indices[i] < |fs|
    ensures r.Some? ==> ValidPath(r.value) && SameCds(p, r.value)
  {
    CompleteAll(LogTop(LogTop(p, Int(|m.indices|), 0), EncInts(m.indices), 0), Pick(fs, m.indices))
  }

  function GenTest(p: seq<Cd>, fs: seq<nat>, m: Mpi): (r: Option<seq<Cd>>)
    requires ValidPath(p)
    ensures r.Some? ==> ValidPath(r.value) && SameCds(p, r.value)
  {
    if m.flag then CompleteAll(LogTop(p, Int(1), 0), fs) else LogAgain(p, Int(0), 0)
  }

  /** What the calls that complete nothing leave in the current CD's table and queue, entry by entry. */
  lemma {:induction false} GenAdds(p: seq<Cd>, c: Call, m: Mpi)
    requires ValidPath(p) && Legal(c, m) && (c.Send? || c.Recv? || c.Sendrecv? || c.Isend? || c.Irecv?)
    ensures Gen(p, c, m).Some?
    ensures
      var n := |p| - 1;
      var t, q := p[n].log.table, p[n].log.queue;
      var u, r := Gen(p, c, m).value[n].log.table, Gen(p, c, m).value[n].log.queue;
      match c
      case Send => u == t + [Entry(|q|, 0, true, 0, 1, 0, false, m.task)] && r == q
      case Recv(_) => u == t + [Entry(|q|, |m.data|, true, 0, 1, 0, false, m.task)] && r == q + m.data
      case Sendrecv(_) =>
        && u == t + [Entry(|q|, 0, true, 0, 1, 0, false, m.task), Entry(|q|, |m.data|, true, 0, 1, 0, false, m.task)]
        && r == q + m.data
      case Isend(f, _) => u == t + [Entry(|q|, 0, false, f, 1, 0, false, m.task)] && r == q
      case Irecv(f, k, intra) =>
        && u == t + [Entry(|q|, if intra then 0 else k, false, f, 1, 0, false, m.task)]
        && r == q + m.junk && |m.junk| == if intra then 0 else k
  {
    hide Valid, LogTop, Post;
    var n := |p| - 1;
    var t, q := p[n].log.table, p[n].log.queue;
    assert q + [] == q;
    match c
    case Send => LogTopAdds(p, [], m.task);
    case Recv(_) => LogTopAdds(p, m.data, m.task);
    case Sendrecv(_) =>
      LogTopAdds(p, [], m.task);
      LogTopAdds(LogTop(p, [], m.task), m.data, m.task);
    case Isend(f, intra) => PostAdds(p, Incomplete(f, [], false, intra, m.task), m.junk);
    case Irecv(f, _, intra) => PostAdds(p, Incomplete(f, m.data, true, intra, m.task), m.junk);
  }

  /**
    What the calls that complete requests leave: first a flag, an index or a count of four bytes, where they log
    one, with task 0, then their further payload, then one event per completed request.
   */
  lemma {:induction false} GenCompletes(p: seq<Cd>, c: Call, m: Mpi)
    requires ValidPath(p) && Legal(c, m) && Gen(p, c, m).Some?
    requires c.Waitall? || c.Waitany? || c.Waitsome? || (m.flag && (c.Test? || c.Testall? || c.Testany?))
    ensures
      var l := Top(p).log;
      var t, u, q := l.table, Top(Gen(p, c, m).value).log.table, |l.queue|;
      var first := Entry(q, 4, true, 0, 1, 0, false, 0);
      && (forall i :: 0 <= i < |t| ==> i < |u| && u[i] == t[i].(completed := u[i].completed))
      && match c
         case Waitall(fs) => |u| == |t| + |fs| && forall i :: |t| <= i < |u| ==> u[i].length == 0
         case Test(_) => |u| == |t| + 2 && u[|t|] == first && u[|t| + 1].length == 0
         case Testall(fs) =>
           |u| == |t| + 1 + |fs| && u[|t|] == first && forall i :: |t| < i < |u| ==> u[i].length == 0
         case Waitany(_) => |u| == |t| + 2 && u[|t|] == first && u[|t| + 1].length == 0
         case Testany(_) =>
           |u| == |t| + 3 && u[|t|] == first && u[|t| + 1] == first.(pos := q + 4) && u[|t| + 2].length == 0
         case Waitsome(_) =>
           && |u| == |t| + 2 + |m.indices| && u[|t|] == first
           && u[|t| + 1] == first.(pos := q + 4, length := 4 * |m.indices|)
           && forall i :: |t| + 2 <= i < |u| ==> u[i].length == 0
  {
    hide ValidPath, LogTop, Int, Complete, CompleteAll, GenTest, GenTestany, GenWaitsome, EncInts, Pick;
    match c
    case Waitall(fs) => CompletesKeep(p, fs);
    case Test(f) => TestCompletes(p, [f], m);
    case Testall(fs) => TestCompletes(p, fs, m);
    case Waitany(fs) =>
      LogTopAdds(p, Int(m.index), 0);
      CompleteKeeps(LogTop(p, Int(m.index), 0), fs[m.index]);
    case Testany(fs) => TestanyCompletes(p, fs, m);
    case Waitsome(fs) => WaitsomeCompletes(p, fs, m);
  }

  lemma {:induction false} TestanyCompletes(p: seq<Cd>, fs: seq<nat>, m: Mpi)
    requires ValidPath(p) && m.flag && m.index < |fs| && GenTestany(p, fs, m).Some?
    ensures
      var l := Top(p).log;
      var t, u := l.table, Top(GenTestany(p, fs, m).value).log.table;
      var first := Entry(|l.queue|, 4, true, 0, 1, 0, false, 0);
      && |u| == |t| + 3 && u[|t|] == first && u[|t| + 1] == first.(pos := |l.queue| + 4) && u[|t| + 2].length == 0
      && (forall i :: 0 <= i < |t| ==> u[i] == t[i].(completed := u[i].completed))
  {
    hide ValidPath, LogTop, Int, Complete;
    LogTopAdds(p, Int(1), 0);
    LogTopAdds(LogTop(p, Int(1), 0), Int(m.index), 0);
    CompleteKeeps(LogTop(LogTop(p, Int(1), 0), Int(m.index), 0), fs[m.index]);
  }

  lemma {:induction false} WaitsomeCompletes(p: seq<Cd>, fs: seq<nat>, m: Mpi)
    requires ValidPath(p) && Legal(Waitsome(fs), m) && GenWaitsome(p, fs, m).Some?
    ensures
      var l, k := Top(p).log, |m.indices|;
      var t, u := l.table, Top(GenWaitsome(p, fs, m).value).log.table;
      var first := Entry(|l.queue|, 4, true, 0, 1, 0, false, 0);
      && |u| == |t| + 2 + k && u[|t|] == first && u[|t| + 1] == first.(pos := |l.queue| + 4, length := 4 * k)
      && (forall i :: 0 <= i < |t| ==> u[i] == t[i].(completed := u[i].completed))
      && (forall i :: |t| + 2 <= i < |u| ==> u[i].length == 0)
  {
    hide ValidPath, LogTop, Int, CompleteAll, EncInts, Pick;
    LogTopAdds(p, Int(|m.indices|), 0);
    LogTopAdds(LogTop(p, Int(|m.indices|), 0), EncInts(m.indices), 0);
    CompletesKeep(LogTop(LogTop(p, Int(|m.indices|), 0), EncInts(m.indices), 0), Pick(fs, m.indices));
  }

  lemma {:induction false} TestCompletes(p: seq<Cd>, fs: seq<nat>, m: Mpi)
    requires ValidPath(p) && m.flag && GenTest(p, fs, m).Some?
    ensures
      var l := Top(p).log;
      var t, u := l.table, Top(GenTest(p, fs, m).value).log.table;
      && |u| == |t| + 1 + |fs| && u[|t|] == Entry(|l.queue|, 4, true, 0, 1, 0, false, 0)
      && (forall i :: 0 <= i < |t| ==> u[i] == t[i].(completed := u[i].completed))
      && (forall i :: |t| < i < |u| ==> u[i].length == 0)
  {
    hide ValidPath, LogTop, Int, CompleteAll;
    LogTopAdds(p, Int(1), 0);
    CompletesKeep(LogTop(p, Int(1), 0), fs);
  }

  /** And the answer "not yet": four zero bytes, once more or counted up. */
  lemma {:induction false} GenPolls(p: seq<Cd>, c: Call, m: Mpi)
    requires ValidPath(p) && Legal(c, m) && !m.flag && (c.Test? || c.Testall? || c.Testany?)
    requires Gen(p, c, m).Some?
    ensures Top(p).log.table != []
    ensures
      var l, r := Top(p).log, Top(Gen(p, c, m).value).log;
      var k := |l.table| - 1;
      var last := l.table[k];
      if last.isrepeated && last.length == 4 && last.completed && last.flag == 0 then
        r == l.(table := l.table[k := last.(counter := last.counter + 1)])
      else
        r.table == l.table + [Entry(|l.queue|, 4, true, 0, 1, 0, true, 0)] && r.queue == l.queue + [0, 0, 0, 0]
  {
    hide Valid, Int, LogAgain, CompleteAll, Complete, LogTop;
    PolledBefore(p);
    LogAgainAdds(p, Int(0), 0);
    SmallInts();
  }

  lemma PolledBefore(p: seq<Cd>)
    requires ValidPath(p)
    ensures LogAgain(p, Int(0), 0).Some? ==> Top(p).log.table != []
  {
  }

  // ---- kRelaxedCDRead ----

  /** Replayed: answered from the log. NeedsMpi: the log ran out, or an intra-CD receive is reissued. */
  datatype Replayed = Replayed(log: Log, out: Output) | NeedsMpi | Stopped

  /** A read or probe whose return code the wrapper does not look at. */
  function Skip(l: Log, length: nat): (r: Option<Log>)
    requires Valid(l)
    ensures r.Some? ==> Valid(r.value)
  {
    var err := Check(l, length, Error);
    AfterValid(l, err);
    if err == Aborted then None else Some(After(l, err))
  }

  lemma AfterValid(l: Log, err: Err)
    requires Valid(l) && (err == OK ==> l.cursor < |l.table|)
    ensures Valid(After(l, err))
  {
    if err == OK {
      AdvanceValid(l);
    }
  }

  function SkipMany(l: Log, n: nat): (r: Option<Log>)
    requires Valid(l)
    ensures r.Some? ==> Valid(r.value)
    decreases n
  {
    if n == 0 then Some(l)
    else
      var r :- Skip(l, 0);
      SkipMany(r, n - 1)
  }

  /** Waitall's loop: it leaves at a flip, and its last return code decides. */
  function ProbeMany(l: Log, n: nat): (r: Replayed)
    requires Valid(l) && n > 0
    ensures r.Replayed? ==> Valid(r.log)
    decreases n
  {
    var err := Check(l, 0, Error);
    AfterValid(l, err);
    if err == ModeFlip then NeedsMpi
    else if err == Aborted then Stopped
    else if n > 1 then ProbeMany(After(l, err), n - 1)
    else if err == Error then Stopped
    else Replayed(After(l, err), NoOutput)
  }

  /** The payload under the cursor, for a read that was answered OK. */
  function Got(l: Log): seq<byte>
    requires Valid(l)
  {
    if l.cursor < |l.table| then LogModel.Payload(l, l.cursor) else []
  }

  function Read(l: Log, c: Call): (r: Replayed)
    requires Valid(l)
    requires c.Waitall? ==> c.reqs != []
    ensures r.Replayed? ==> Valid(r.log)
  {
    match c
    case Send =>
      var err := Check(l, 0, Error);
      AfterValid(l, err);
      if err == ModeFlip then NeedsMpi else if err == Aborted then Stopped else Replayed(After(l, err), NoOutput)
    case Recv(n) => ReadPayload(l, n)
    case Sendrecv(n) =>
      var err := Check(l, 0, Error);
      if err == ModeFlip then NeedsMpi
      else if err == Aborted then Stopped
      else if err == OK then
        AfterValid(l, OK);
        var r := ReadPayload(Advance(l), n);
        if r.Replayed? && r.out.Payload? then r else Stopped
      else Replayed(l, Untouched)
    case Isend(_, _) =>
      var err := Check(l, 0, Error);
      AfterValid(l, err);
      if err == ModeFlip then NeedsMpi else if err == OK then Replayed(Advance(l), NoOutput) else Stopped
    case Irecv(_, n, intra) =>
      // inside the CD the receive is issued again, and its entry read with length 0
      if !intra then ReadPayload(l, n) else if Check(l, 0, Missing) == Aborted then Stopped else NeedsMpi
    case Test(_) => ReadTest(l, 1)
    case Testall(fs) => ReadTest(l, |fs|)
    case Testany(_) => ReadTestany(l)
    case Waitall(fs) => ProbeMany(l, |fs|)
    case Waitany(_) => ReadWaitany(l)
    case Waitsome(_) => ReadWaitsome(l)
  }

  function ReadTestany(l: Log): (r: Replayed)
    requires Valid(l)
    ensures r.Replayed? ==> Valid(r.log)
  {
    var r := ReadPayload(l, INT);
    if !r.Replayed? || !r.out.Payload? then r
    else if Dec(r.out.bytes) != 1 then Replayed(r.log, Flag(Dec(r.out.bytes)))
    else
      match Skip(r.log, INT)
      case None => Stopped
      case Some(s) =>
        match Skip(s, 0)
        case None => Stopped
        case Some(t) =>
          Replayed(t, if Check(r.log, INT, Error) == OK then FlagIndex(1, Dec(Got(r.log))) else Untouched)
  }

  function ReadWaitany(l: Log): (r: Replayed)
    requires Valid(l)
    ensures r.Replayed? ==> Valid(r.log)
  {
    var r := ReadPayload(l, INT);
    if !r.Replayed? || !r.out.Payload? then r
    else
      match Skip(r.log, 0)
      case None => Stopped
      case Some(s) => Replayed(s, Index(Dec(r.out.bytes)))
  }

  function ReadWaitsome(l: Log): (r: Replayed)
    requires Valid(l)
    ensures r.Replayed? ==> Valid(r.log)
  {
    var r := ReadPayload(l, INT);
    if !r.Replayed? || !r.out.Payload? then r
    else
      var n := Dec(r.out.bytes);
      match Skip(r.log, INT * n)
      case None => Stopped
      case Some(s) =>
        match SkipMany(s, n)
        case None => Stopped
        case Some(t) =>
          Replayed(t, if Check(r.log, INT * n, Error) == OK then Indices(n, Got(r.log)) else Untouched)
  }

  function ReadPayload(l: Log, n: nat): (r: Replayed)
    requires Valid(l)
    ensures r.Replayed? ==> r.log == After(l, Check(l, n, Missing)) && Valid(r.log)
  {
    var err := Check(l, n, Missing);
    AfterValid(l, err);
    if err == ModeFlip then NeedsMpi
    else if err == Aborted then Stopped
    else if err == OK then Replayed(Advance(l), Payload(Got(l)))
    else Replayed(l, Untouched)
  }

  function ReadTest(l: Log, n: nat): (r: Replayed)
    requires Valid(l)
    ensures r.Replayed? ==> Valid(r.log)
  {
    var r := ReadPayload(l, INT);
    if !r.Replayed? || !r.out.Payload? then r
    else if Dec(r.out.bytes) != 1 then Replayed(r.log, Flag(Dec(r.out.bytes)))
    else
      match SkipMany(r.log, n)
      case None => Stopped
      case Some(s) => Replayed(s, Flag(1))
  }

  // ---- one read, told from the table entry under the cursor ----

  /** The length a call asks for first. */
  function Asked(c: Call): nat
  {
    match c
    case Recv(n) => n
    case Irecv(_, n, false) => n
    case Test(_) => 4
    case Testall(_) => 4
    case Testany(_) => 4
    case Waitany(_) => 4
    case Waitsome(_) => 4
    case _ => 0
  }

  /**
    A request that was still open at the error: a read of its payload is answered at once, with the caller's
    buffer and the log untouched, and the program goes on. Only Isend and Waitall stop there.
   */
  lemma {:induction false} OpenSlotIsAnswered(l: Log, c: Call)
    requires Valid(l) && (c.Waitall? ==> c.reqs != []) && l.cursor < |l.table|
    requires !l.table[l.cursor].completed && l.table[l.cursor].length == Asked(c)
    ensures
      match c
      case Send => Read(l, c) == Replayed(l, NoOutput)
      case Isend(_, _) => Read(l, c) == Stopped
      case Waitall(_) => Read(l, c) == Stopped
      case Irecv(_, _, true) => Read(l, c) == NeedsMpi
      case _ => Read(l, c) == Replayed(l, Untouched)
  {
    hide Tiled;
    if c.Waitall? {
      OpenSlotStops(l, |c.reqs|);
    }
  }

  lemma {:induction false} OpenSlotStops(l: Log, n: nat)
    requires Valid(l) && n > 0 && l.cursor < |l.table|
    requires !l.table[l.cursor].completed && l.table[l.cursor].length == 0
    ensures ProbeMany(l, n) == Stopped
    decreases n
  {
    hide Tiled;
    if n > 1 {
      OpenSlotStops(l, n - 1);
    }
  }

  /** Another length than the one recorded ends the run, whatever the call. */
  lemma {:induction false} WrongLengthStops(l: Log, c: Call)
    requires Valid(l) && (c.Waitall? ==> c.reqs != []) && l.cursor < |l.table|
    requires l.table[l.cursor].length != Asked(c)
    ensures Read(l, c) == Stopped
  {
    hide Tiled;
  }

  /** A read whose code is dropped: past the end it flips, an open slot stays where it is, another length stops. */
  lemma {:induction false} SkipMeans(l: Log, n: nat)
    requires Valid(l)
    ensures l.cursor == |l.table| ==> Skip(l, n) == Some(l.(mode := GenerateLog))
    ensures
      l.cursor < |l.table| ==>
        var e := l.table[l.cursor];
        Skip(l, n) == if e.length != n then None else if e.completed then Some(Advance(l)) else Some(l)
  {
    hide Tiled, Advance;
  }

  // ---- the two sides meet: what a call leaves behind and what it answers ----

  /** One record a call owes the log: fixed at once, or the payload of a request that completes later. */
  datatype Ideal = Fixed(bytes: seq<byte>) | Slot(flag: nat, want: seq<byte>)

  function Events(n: nat): (s: seq<Ideal>)
    ensures |s| == n
  {
    seq(n, _ => Fixed([]))
  }

  function Trace(c: Call, m: Mpi): seq<Ideal>
  {
    match c
    case Send => [Fixed([])]
    case Recv(_) => [Fixed(m.data)]
    case Sendrecv(_) => [Fixed([]), Fixed(m.data)]
    case Isend(f, _) => [Slot(f, [])]
    case Irecv(f, _, _) => [Slot(f, m.data)]
    case Test(_) => if m.flag then [Fixed(Int(1))] + Events(1) else [Fixed(Int(0))]
    case Testall(fs) => if m.flag then [Fixed(Int(1))] + Events(|fs|) else [Fixed(Int(0))]
    case Testany(_) => if m.flag then [Fixed(Int(1)), Fixed(Int(m.index)), Fixed([])] else [Fixed(Int(0))]
    case Waitall(fs) => Events(|fs|)
    case Waitany(_) => [Fixed(Int(m.index)), Fixed([])]
    case Waitsome(_) => [Fixed(Int(|m.indices|)), Fixed(EncInts(m.indices))] + Events(|m.indices|)
  }

  /** What the application sees of the call; an Irecv's buffer counts from when its request completed. */
  function OutputOf(c: Call, m: Mpi): Output
  {
    match c
    case Send => NoOutput
    case Recv(_) => Payload(m.data)
    case Sendrecv(_) => Payload(m.data)
    case Isend(_, _) => NoOutput
    case Irecv(_, _, _) => Payload(m.data)
    case Test(_) => Flag(Bit(m.flag))
    case Testall(_) => Flag(Bit(m.flag))
    case Testany(_) => if m.flag then FlagIndex(1, m.index) else Flag(0)
    case Waitall(_) => NoOutput
    case Waitany(_) => Index(m.index)
    case Waitsome(_) => Indices(|m.indices|, EncInts(m.indices))
  }

  /** The record is there; a request's may be open, or hold some data of the right length. */
  ghost predicate Agrees(it: Item, i: Ideal)
  {
    match i
    case Fixed(x) => it == Data(0, x)
    case Slot(f, x) => it == Hole(f, |x|) || (it.Data? && it.flag == f && |it.payload| == |x|)
  }

  /** And it holds what it should. */
  predicate Delivered(it: Item, i: Ideal)
  {
    match i
    case Fixed(x) => it == Data(0, x)
    case Slot(f, x) => it == Data(f, x)
  }

  ghost predicate DeliveredAll(items: seq<Item>, ideals: seq<Ideal>)
  {
    |items| == |ideals| && forall i :: 0 <= i < |items| ==> Delivered(items[i], ideals[i])
  }

  ghost predicate AgreesAll(items: seq<Item>, ideals: seq<Ideal>)
  {
    |items| == |ideals| && forall i :: 0 <= i < |items| ==> Agrees(items[i], ideals[i])
  }

  ghost predicate Suffix(items: seq<Item>, rest: seq<Item>)
  {
    |rest| <= |items| && rest == items[|items| - |rest|..]
  }

  // ---- replaying one call ----

  /** A read that asks for what comes next gets it. */
  lemma {:induction false} ReadNext(l: Log, x: Item, rest: seq<Item>)
    requires Valid(l) && Remaining(l) == [x] + rest
    ensures l.cursor < |l.table| && x == ItemAt(l, l.cursor)
    ensures Valid(Advance(l)) && Remaining(Advance(l)) == rest && Advance(l).mode == l.mode
    ensures x.Data? ==> Got(l) == x.payload && forall e :: Check(l, |x.payload|, e) == OK
    ensures x.Hole? ==> forall e :: Check(l, x.length, e) == e
  {
    hide Tiled, LogModel.Payload;
    assert Remaining(l) != [];
    ReadStep(l);
    assert ([x] + rest)[1..] == rest;
  }

  /** The log ends behind a call's flag, index or count: what was to follow is not missed, or is left untouched. */
  lemma {:induction false} CutShort(l: Log, f: nat, p: seq<byte>, r: nat, rs: seq<nat>)
    requires Valid(l) && Remaining(l) == [Data(f, p)] && |p| == 4 && rs != []
    ensures Valid(Advance(l))
    ensures
      var end := Advance(l).(mode := GenerateLog);
      && (Dec(p) == 1 ==> Read(l, Test(r)) == Replayed(end, Flag(1)) && Read(l, Testall(rs)) == Replayed(end, Flag(1))
                          && Read(l, Testany(rs)) == Replayed(end, Untouched))
      && Read(l, Waitany(rs)) == Replayed(end, Index(Dec(p)))
      && (Dec(p) > 0 ==> Read(l, Waitsome(rs)) == Replayed(end, Untouched))
  {
    hide Tiled, Advance, Dec, Remaining, Skip, SkipMany, ReadWaitsome;
    FirstString(l, Data(f, p), []);
    var m := Advance(l);
    NothingRemains(m);
    var end := m.(mode := GenerateLog);
    SkipsAtEnd(m, 1);
    SkipsAtEnd(m, |rs|);
    SkipMeans(m, INT);
    SkipMeans(m, 0);
    SkipMeans(end, 0);
    CountCutShort(l, f, p);
  }

  lemma {:induction false} CountCutShort(l: Log, f: nat, p: seq<byte>)
    requires Valid(l) && Remaining(l) == [Data(f, p)] && |p| == 4
    ensures Dec(p) > 0 ==> ReadWaitsome(l) == Replayed(Advance(l).(mode := GenerateLog), Untouched)
  {
    hide Tiled, Advance, Dec, Remaining, Skip, SkipMany;
    FirstString(l, Data(f, p), []);
    var m := Advance(l);
    NothingRemains(m);
    SkipsAtEnd(m.(mode := GenerateLog), Dec(p));
    SkipMeans(m, INT * Dec(p));
  }

  lemma {:induction false} FirstString(l: Log, x: Item, rest: seq<Item>)
    requires Valid(l) && Remaining(l) == [x] + rest && x.Data?
    ensures l.cursor < |l.table| && Valid(Advance(l)) && Remaining(Advance(l)) == rest && Advance(l).mode == l.mode
    ensures ReadPayload(l, |x.payload|) == Replayed(Advance(l), Payload(x.payload))
    ensures Check(l, |x.payload|, Error) == OK && Got(l) == x.payload
  {
    hide Valid, Advance, Remaining;
    ReadNext(l, x, rest);
  }

  /** Another length in the second place stops the call as well. */
  lemma {:induction false} WrongLengthLater(l: Log, c: Call, f: nat, p: seq<byte>, g: nat, s: seq<byte>,
                                            more: seq<Item>)
    requires Valid(l) && Remaining(l) == [Data(f, p)] + ([Data(g, s)] + more) && |p| == Asked(c)
    requires
      match c
      case Sendrecv(n) => |s| != n
      case Test(_) => Dec(p) == 1 && s != []
      case Testall(fs) => Dec(p) == 1 && fs != [] && s != []
      case Testany(_) => Dec(p) == 1 && |s| != 4
      case Waitany(_) => s != []
      case Waitsome(_) => |s| != 4 * Dec(p)
      case Waitall(fs) => |fs| > 1 && s != []
      case _ => false
    ensures Read(l, c) == Stopped
  {
    hide Tiled, Advance, Dec, Remaining, Skip;
    FirstString(l, Data(f, p), [Data(g, s)] + more);
    var m := Advance(l);
    FirstString(m, Data(g, s), more);
    SecondCheck(m, |s|);
    match c
    case Sendrecv(n) => assert Check(l, 0, Error) == OK;
    case Test(_) => StopsMany(m, 1);
    case Testall(fs) => StopsMany(m, |fs|);
    case Testany(_) => SkipMeans(m, INT);
    case Waitany(_) => SkipMeans(m, 0);
    case Waitsome(_) => SkipMeans(m, INT * Dec(p));
    case Waitall(fs) =>
      assert Check(l, 0, Error) == OK && Check(m, 0, Error) == Aborted;
      assert ProbeMany(m, |fs| - 1) == Stopped;
      assert ProbeMany(l, |fs|) == ProbeMany(m, |fs| - 1);
  }

  /** Nor is anything but an empty event accepted in the last place. */
  lemma {:induction false} WrongEventLater(l: Log, f: nat, p: seq<byte>, g: nat, s: seq<byte>, h: nat, e: seq<byte>,
                                           more: seq<Item>, rs: seq<nat>)
    requires Valid(l) && Remaining(l) == [Data(f, p)] + ([Data(g, s)] + ([Data(h, e)] + more)) && |p| == 4 && e != []
    ensures Dec(p) == 1 && |s| == 4 ==> Read(l, Testany(rs)) == Stopped
    ensures Dec(p) > 0 && |s| == 4 * Dec(p) ==> Read(l, Waitsome(rs)) == Stopped
  {
    hide Tiled, Advance, Dec, Remaining, Skip, SkipMany;
    FirstString(l, Data(f, p), [Data(g, s)] + ([Data(h, e)] + more));
    var m := Advance(l);
    FirstString(m, Data(g, s), [Data(h, e)] + more);
    var k := Advance(m);
    FirstString(k, Data(h, e), more);
    SecondCheck(m, |s|);
    SecondCheck(k, |e|);
    SkipMeans(m, |s|);
    SkipMeans(k, 0);
    AllOk(m);
    if Dec(p) > 0 {
      StopsMany(k, Dec(p));
    }
  }

  lemma AllOk(l: Log)
    requires Valid(l) && l.cursor < |l.table| && Check(l, l.table[l.cursor].length, Error) == OK
    ensures l.table[l.cursor].completed
  {
  }

  /** A Sendrecv whose event is there but whose payload is not, or is still open, stops. */
  lemma {:induction false} HalfSendrecv(l: Log, n: nat, f: nat, rest: seq<Item>)
    requires Valid(l) && Remaining(l) == [Data(f, [])] + rest && (rest == [] || rest[0].Hole?)
    ensures Read(l, Sendrecv(n)) == Stopped
  {
    hide Valid, Advance, Remaining;
    FirstString(l, Data(f, []), rest);
    var m := Advance(l);
    if rest == [] {
      assert m.cursor == |m.table| by { NothingRemains(m); }
    } else {
      assert rest == [rest[0]] + rest[1..];
      ReadNext(m, rest[0], rest[1..]);
    }
  }

  lemma StopsMany(l: Log, n: nat)
    requires Valid(l) && n > 0 && l.cursor < |l.table| && l.table[l.cursor].length != 0
    ensures SkipMany(l, n) == None
  {
    hide Tiled;
  }

  lemma {:induction false} SecondCheck(l: Log, n: nat)
    requires l.cursor < |l.table| && Check(l, n, Error) == OK
    ensures forall k: nat, e :: k != n ==> Check(l, k, e) == Aborted
    ensures l.table[l.cursor].length == n
  {
  }

  lemma NothingRemains(l: Log)
    requires Valid(l)
    ensures Remaining(l) == [] ==> l.cursor == |l.table|
  {
    if l.cursor < |l.table| {
      assert Live(l.table[l.cursor]);
    }
  }

  lemma {:induction false} SkipsAtEnd(l: Log, n: nat)
    requires Valid(l) && l.cursor == |l.table|
    ensures Valid(l.(mode := GenerateLog))
    ensures n > 0 ==> SkipMany(l, n) == Some(l.(mode := GenerateLog))
    decreases n
  {
    hide Tiled, Skip;
    SkipMeans(l, 0);
    if n > 1 {
      SkipsAtEnd(l.(mode := GenerateLog), n - 1);
    }
  }

  lemma {:induction false} SkipEvents(l: Log, n: nat, rest: seq<Item>)
    requires Valid(l) && Remaining(l) == seq(n, _ => Data(0, [])) + rest
    ensures
      var r := SkipMany(l, n);
      r.Some? && Valid(r.value) && Remaining(r.value) == rest && r.value.mode == l.mode
    decreases n
  {
    hide Valid, Remaining, Check, Advance;
    var evs := seq(n, _ => Data(0, []));
    if n == 0 {
      assert evs + rest == rest;
    } else {
      var evs' := seq(n - 1, _ => Data(0, []));
      assert evs + rest == [Data(0, [])] + (evs' + rest);
      ReadNext(l, Data(0, []), evs' + rest);
      SkipEvents(Advance(l), n - 1, rest);
    }
  }

  lemma {:induction false} ProbeEvents(l: Log, n: nat, rest: seq<Item>)
    requires n > 0 && Valid(l) && Remaining(l) == seq(n, _ => Data(0, [])) + rest
    ensures
      var r := ProbeMany(l, n);
      r.Replayed? && r.out == NoOutput && Valid(r.log) && Remaining(r.log) == rest && r.log.mode == l.mode
    decreases n
  {
    hide Valid, Remaining, Check, Advance;
    var evs := seq(n, _ => Data(0, []));
    var evs' := seq(n - 1, _ => Data(0, []));
    assert evs + rest == [Data(0, [])] + (evs' + rest);
    ReadNext(l, Data(0, []), evs' + rest);
    if n == 1 {
      assert evs' + rest == rest;
    } else {
      ProbeEvents(Advance(l), n - 1, rest);
    }
  }

  /** What the items ahead look like when they agree with fixed records. */
  lemma {:induction false} TakeFixed(items: seq<Item>, x: seq<byte>, more: seq<Ideal>) returns (tail: seq<Item>)
    requires AgreesAll(items, [Fixed(x)] + more)
    ensures items == [Data(0, x)] + tail && AgreesAll(tail, more) && tail == items[1..]
  {
    var ids := [Fixed(x)] + more;
    tail := items[1..];
    assert Agrees(items[0], ids[0]);
    forall i | 0 <= i < |tail|
      ensures Agrees(tail[i], more[i])
    {
      assert Agrees(items[i + 1], ids[i + 1]);
    }
  }

  lemma {:induction false} TakeEvents(items: seq<Item>, n: nat, more: seq<Ideal>) returns (tail: seq<Item>)
    requires AgreesAll(items, Events(n) + more)
    ensures items == seq(n, _ => Data(0, [])) + tail && AgreesAll(tail, more) && tail == items[n..]
  {
    var ids := Events(n) + more;
    tail := items[n..];
    forall i | 0 <= i < |items|
      ensures i < n ==> items[i] == Data(0, [])
      ensures i >= n ==> Agrees(items[i], more[i - n])
    {
      assert Agrees(items[i], ids[i]);
    }
    assert items[..n] == seq(n, _ => Data(0, []));
    assert items == items[..n] + tail;
  }

  ghost predicate Replays(l: Log, c: Call, out: Output, rest: seq<Item>)
    requires Valid(l) && (c.Waitall? ==> c.reqs != [])
  {
    var r := Read(l, c);
    r.Replayed? && r.out == out && Valid(r.log) && Remaining(r.log) == rest && r.log.mode == l.mode
  }

  lemma {:induction false} ReplayTest(l: Log, fs: nat, m: Mpi, more: seq<Ideal>) returns (rest: seq<Item>)
    requires Valid(l)
    requires AgreesAll(Remaining(l), (if m.flag then [Fixed(Int(1))] + Events(fs) else [Fixed(Int(0))]) + more)
    ensures AgreesAll(rest, more) && Suffix(Remaining(l), rest)
    ensures
      var r := ReadTest(l, fs);
      r.Replayed? && r.out == Flag(Bit(m.flag)) && Valid(r.log) && Remaining(r.log) == rest && r.log.mode == l.mode
  {
    hide Valid, Remaining, Check, Advance, Dec, Int, Agrees, SkipMany;
    if m.flag {
      assert [Fixed(Int(1))] + Events(fs) + more == [Fixed(Int(1))] + (Events(fs) + more);
      var tail := TakeFixed(Remaining(l), Int(1), Events(fs) + more);
      ReadNext(l, Data(0, Int(1)), tail);
      rest := TakeEvents(tail, fs, more);
      SkipEvents(Advance(l), fs, rest);
    } else {
      rest := TakeFixed(Remaining(l), Int(0), more);
      ReadNext(l, Data(0, Int(0)), rest);
    }
  }

  lemma {:induction false} ReplayTestany(l: Log, m: Mpi, more: seq<Ideal>) returns (rest: seq<Item>)
    requires Valid(l) && (m.flag ==> m.index < U32)
    requires
      var owed := if m.flag then [Fixed(Int(1)), Fixed(Int(m.index)), Fixed([])] else [Fixed(Int(0))];
      AgreesAll(Remaining(l), owed + more)
    ensures AgreesAll(rest, more) && Suffix(Remaining(l), rest)
    ensures
      var r := ReadTestany(l);
      && r.Replayed? && r.out == (if m.flag then FlagIndex(1, m.index) else Flag(0))
      && Valid(r.log) && Remaining(r.log) == rest && r.log.mode == l.mode
  {
    hide Valid, Remaining, Check, Advance, Dec, Int, Agrees;
    if m.flag {
      var a, b, e := Fixed(Int(1)), Fixed(Int(m.index)), Fixed([]);
      assert [a, b, e] + more == [a] + ([b] + ([e] + more));
      var t1 := TakeFixed(Remaining(l), Int(1), [b] + ([e] + more));
      ReadNext(l, Data(0, Int(1)), t1);
      var t2 := TakeFixed(t1, Int(m.index), [e] + more);
      ReadNext(Advance(l), Data(0, Int(m.index)), t2);
      rest := TakeFixed(t2, [], more);
      ReadNext(Advance(Advance(l)), Data(0, []), rest);
    } else {
      rest := TakeFixed(Remaining(l), Int(0), more);
      ReadNext(l, Data(0, Int(0)), rest);
    }
  }

  lemma {:induction false} ReplayWaitany(l: Log, index: nat, more: seq<Ideal>) returns (rest: seq<Item>)
    requires Valid(l) && index < U32
    requires AgreesAll(Remaining(l), [Fixed(Int(index)), Fixed([])] + more)
    ensures AgreesAll(rest, more) && Suffix(Remaining(l), rest)
    ensures
      var r := ReadWaitany(l);
      r.Replayed? && r.out == Index(index) && Valid(r.log) && Remaining(r.log) == rest && r.log.mode == l.mode
  {
    hide Valid, Remaining, Check, Advance, Dec, Int, Agrees;
    assert [Fixed(Int(index)), Fixed([])] + more == [Fixed(Int(index))] + ([Fixed([])] + more);
    var t1 := TakeFixed(Remaining(l), Int(index), [Fixed([])] + more);
    ReadNext(l, Data(0, Int(index)), t1);
    rest := TakeFixed(t1, [], more);
    ReadNext(Advance(l), Data(0, []), rest);
  }

  lemma {:induction false} ReplayWaitsome(l: Log, xs: seq<nat>, more: seq<Ideal>) returns (rest: seq<Item>)
    requires Valid(l) && |xs| < U32
    requires AgreesAll(Remaining(l), [Fixed(Int(|xs|)), Fixed(EncInts(xs))] + Events(|xs|) + more)
    ensures AgreesAll(rest, more) && Suffix(Remaining(l), rest)
    ensures
      var r := ReadWaitsome(l);
      && r.Replayed? && r.out == Indices(|xs|, EncInts(xs))
      && Valid(r.log) && Remaining(r.log) == rest && r.log.mode == l.mode
  {
    hide Valid, Remaining, Check, Advance, Dec, Int, Agrees, EncInts, SkipMany;
    var n := |xs|;
    var a, b := Fixed(Int(n)), Fixed(EncInts(xs));
    assert [a, b] + Events(n) + more == [a] + ([b] + (Events(n) + more));
    var t1 := TakeFixed(Remaining(l), Int(n), [b] + (Events(n) + more));
    ReadNext(l, Data(0, Int(n)), t1);
    var t2 := TakeFixed(t1, EncInts(xs), Events(n) + more);
    ReadNext(Advance(l), Data(0, EncInts(xs)), t2);
    rest := TakeEvents(t2, n, more);
    SkipEvents(Advance(Advance(l)), n, rest);
  }

  lemma {:induction false} ReplaySendrecv(l: Log, data: seq<byte>, more: seq<Ideal>) returns (rest: seq<Item>)
    requires Valid(l)
    requires AgreesAll(Remaining(l), [Fixed([]), Fixed(data)] + more)
    ensures AgreesAll(rest, more) && Suffix(Remaining(l), rest) && Replays(l, Sendrecv(|data|), Payload(data), rest)
  {
    hide Valid, Remaining, Check, Advance, Agrees;
    assert [Fixed([]), Fixed(data)] + more == [Fixed([])] + ([Fixed(data)] + more);
    var t1 := TakeFixed(Remaining(l), [], [Fixed(data)] + more);
    ReadNext(l, Data(0, []), t1);
    rest := TakeFixed(t1, data, more);
    ReadNext(Advance(l), Data(0, data), rest);
  }

  lemma {:induction false} ReplayOne(l: Log, c: Call, data: seq<byte>, more: seq<Ideal>) returns (rest: seq<Item>)
    requires Valid(l) && ((c == Send && data == []) || c == Recv(|data|))
    requires AgreesAll(Remaining(l), [Fixed(data)] + more)
    ensures AgreesAll(rest, more) && Suffix(Remaining(l), rest)
    ensures Replays(l, c, if c.Send? then NoOutput else Payload(data), rest)
  {
    hide Valid, Remaining, Check, Advance, Agrees;
    rest := TakeFixed(Remaining(l), data, more);
    ReadNext(l, Data(0, data), rest);
  }

  lemma {:induction false} ReplayWaitall(l: Log, n: nat, more: seq<Ideal>) returns (rest: seq<Item>)
    requires Valid(l) && n > 0 && AgreesAll(Remaining(l), Events(n) + more)
    ensures AgreesAll(rest, more) && Suffix(Remaining(l), rest)
    ensures
      var r := ProbeMany(l, n);
      r.Replayed? && r.out == NoOutput && Valid(r.log) && Remaining(r.log) == rest && r.log.mode == l.mode
  {
    hide Valid, Remaining, ProbeMany, Agrees;
    rest := TakeEvents(Remaining(l), n, more);
    ProbeEvents(l, n, rest);
  }

  /** Calls whose records are all fixed the moment they are logged. */
  predicate Blocking(c: Call)
  {
    !c.Isend? && !c.Irecv?
  }

  /** Such a call always replays: same answer, its own records consumed and no others. */
  lemma {:induction false} ReplayBlocking(l: Log, c: Call, m: Mpi, more: seq<Ideal>) returns (rest: seq<Item>)
    requires Valid(l) && Legal(c, m) && Blocking(c)
    requires AgreesAll(Remaining(l), Trace(c, m) + more)
    ensures AgreesAll(rest, more) && Suffix(Remaining(l), rest) && Replays(l, c, OutputOf(c, m), rest)
  {
    hide Valid, Remaining, ReadPayload, ReadTest, ReadTestany, ReadWaitany, ReadWaitsome, ProbeMany, AgreesAll, Suffix;
    match c
    case Send =>
      rest := ReplayOne(l, c, [], more);
    case Recv(n) =>
      rest := ReplayOne(l, c, m.data, more);
    case Sendrecv(n) =>
      rest := ReplaySendrecv(l, m.data, more);
    case Test(f) =>
      rest := ReplayTest(l, 1, m, more);
    case Testall(fs) =>
      rest := ReplayTest(l, |fs|, m, more);
    case Testany(fs) =>
      rest := ReplayTestany(l, m, more);
    case Waitall(fs) =>
      rest := ReplayWaitall(l, |fs|, more);
    case Waitany(fs) =>
      rest := ReplayWaitany(l, m.index, more);
    case Waitsome(fs) =>
      rest := ReplayWaitsome(l, m.indices, more);
  }

  /** The one call that goes to MPI even in replay. */
  predicate Reissued(c: Call)
  {
    c.Irecv? && c.intra
  }

  /** A non-blocking call replays as recorded exactly if its request's record holds its own data. */
  lemma {:induction false} ReplayNonBlocking(l: Log, c: Call, m: Mpi, more: seq<Ideal>) returns (rest: seq<Item>)
    requires Valid(l) && Legal(c, m) && !Blocking(c)
    requires AgreesAll(Remaining(l), Trace(c, m) + more)
    ensures AgreesAll(rest, more) && Remaining(l) == [Remaining(l)[0]] + rest
    ensures Delivered(Remaining(l)[0], Trace(c, m)[0]) && !Reissued(c) ==> Replays(l, c, OutputOf(c, m), rest)
    ensures !(Delivered(Remaining(l)[0], Trace(c, m)[0]) && !Reissued(c)) ==>
              !Read(l, c).Replayed? || Read(l, c).out != OutputOf(c, m)
  {
    hide Valid, Remaining, Advance;
    var items := Remaining(l);
    var ids := Trace(c, m) + more;
    rest := items[1..];
    forall i | 0 <= i < |rest|
      ensures Agrees(rest[i], more[i])
    {
      assert Agrees(items[i + 1], ids[i + 1]);
    }
    assert Agrees(items[0], ids[0]);
    assert items == [items[0]] + rest;
    ReadNext(l, items[0], rest);
  }
}
