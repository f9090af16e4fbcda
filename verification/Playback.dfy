/**
  Replay on the arrays: the wrappers' kRelaxedCDRead arms as code that reads a CommLog, and the two moments at
  which a log moves between a CD's CommLog and its parent's.
 */
module Playback {
  import opened Bytes
  import opened LogModel
  import opened PackFormat
  import opened CommLogs
  import opened Wrappers

  /** What the caller gets: an answer, a call of MPI, or an assertion that ends the run. */
  datatype Answer = Answered(out: Output) | AskMpi | Abort

  /** The answer, and the log after it, are those of Wrappers.Read. */
  ghost predicate Plays(r: Answer, after: Log, spec: Replayed)
  {
    match spec
    case Replayed(l, out) => r == Answered(out) && after == l
    case NeedsMpi => r == AskMpi
    case Stopped => r == Abort
  }

  /** One read whose payload is the answer. */
  method PlayPayload(log: CommLog, length: nat) returns (r: Answer)
    requires log.Valid()
    modifies log`mode, log`reexecPos, log.table
    ensures log.Valid() && Plays(r, log.Value(), ReadPayload(old(log.Value()), length))
    ensures old(log.reexecPos) == old(log.tableCur) ==>
              r == AskMpi && log.Value() == old(log.Value()).(mode := GenerateLog)
  {
    hide Tiled;
    var err, data := log.ReadData(length);
    r := if err == ModeFlip then AskMpi
         else if err == Aborted then Abort
         else if err == OK then Answered(Payload(data))
         else Answered(Untouched);
  }

  /** A probe whose return code nobody looks at. */
  method PlaySkip(log: CommLog, length: nat) returns (ok: bool)
    requires log.Valid()
    modifies log`mode, log`reexecPos, log.table
    ensures log.Valid() && ok == Skip(old(log.Value()), length).Some?
    ensures ok ==> log.Value() == Skip(old(log.Value()), length).value
  {
    hide Tiled;
    var err := log.ProbeData(length);
    ok := err != Aborted;
  }

  /** The loop of Test, Testall and Waitsome over the completion events. */
  method PlaySkips(log: CommLog, n: nat) returns (ok: bool)
    requires log.Valid()
    modifies log`mode, log`reexecPos, log.table
    ensures log.Valid() && ok == SkipMany(old(log.Value()), n).Some?
    ensures ok ==> log.Value() == SkipMany(old(log.Value()), n).value
  {
    hide Tiled, Skip;
    var i := 0;
    while i < n
      invariant i <= n && log.Valid() && log.table == old(log.table)
      invariant SkipMany(old(log.Value()), n) == SkipMany(log.Value(), n - i)
    {
      ok := PlaySkip(log, 0);
      if !ok {
        return;
      }
      i := i + 1;
    }
    ok := true;
  }

  method PlayTest(log: CommLog, n: nat) returns (r: Answer)
    requires log.Valid()
    modifies log`mode, log`reexecPos, log.table
    ensures log.Valid() && Plays(r, log.Value(), ReadTest(old(log.Value()), n))
    ensures old(log.reexecPos) == old(log.tableCur) ==>
              r == AskMpi && log.Value() == old(log.Value()).(mode := GenerateLog)
  {
    hide Tiled, Dec, ReadPayload, SkipMany;
    r := PlayPayload(log, INT);
    if r.Answered? && r.out.Payload? {
      var flag := Dec(r.out.bytes);
      r := Answered(Flag(flag));
      if flag == 1 {
        var ok := PlaySkips(log, n);
        r := if ok then r else Abort;
      }
    }
  }

  method PlayTestany(log: CommLog) returns (r: Answer)
    requires log.Valid()
    modifies log`mode, log`reexecPos, log.table
    ensures log.Valid() && Plays(r, log.Value(), ReadTestany(old(log.Value())))
    ensures old(log.reexecPos) == old(log.tableCur) ==>
              r == AskMpi && log.Value() == old(log.Value()).(mode := GenerateLog)
  {
    hide Tiled, Dec, ReadPayload;
    r := PlayPayload(log, INT);
    if r.Answered? && r.out.Payload? {
      var flag := Dec(r.out.bytes);
      r := Answered(Flag(flag));
      if flag == 1 {
        var err, data := ReadAndForget(log, INT);
        if err == Aborted {
          return Abort;
        }
        var ok := PlaySkip(log, 0);
        r := if !ok then Abort else if err == OK then Answered(FlagIndex(1, Dec(data))) else Answered(Untouched);
      }
    }
  }

  /** A read whose return code the wrapper drops. */
  method ReadAndForget(log: CommLog, length: nat) returns (err: Err, data: seq<byte>)
    requires log.Valid()
    modifies log`mode, log`reexecPos, log.table
    ensures log.Valid() && (err == Aborted <==> Skip(old(log.Value()), length).None?)
    ensures err != Aborted ==> log.Value() == Skip(old(log.Value()), length).value
    ensures err == OK <==> Check(old(log.Value()), length, Error) == OK
    ensures err == OK ==> data == Got(old(log.Value()))
  {
    hide Tiled;
    err, data := log.ReadData(length);
  }

  method PlayWaitany(log: CommLog) returns (r: Answer)
    requires log.Valid()
    modifies log`mode, log`reexecPos, log.table
    ensures log.Valid() && Plays(r, log.Value(), ReadWaitany(old(log.Value())))
    ensures old(log.reexecPos) == old(log.tableCur) ==>
              r == AskMpi && log.Value() == old(log.Value()).(mode := GenerateLog)
  {
    hide Tiled, Dec, ReadPayload, Skip;
    r := PlayPayload(log, INT);
    if r.Answered? && r.out.Payload? {
      var ok := PlaySkip(log, 0);
      r := if ok then Answered(Index(Dec(r.out.bytes))) else Abort;
    }
  }

  method PlayWaitsome(log: CommLog) returns (r: Answer)
    requires log.Valid()
    modifies log`mode, log`reexecPos, log.table
    ensures log.Valid() && Plays(r, log.Value(), ReadWaitsome(old(log.Value())))
    ensures old(log.reexecPos) == old(log.tableCur) ==>
              r == AskMpi && log.Value() == old(log.Value()).(mode := GenerateLog)
  {
    hide Tiled, Dec, ReadPayload, Skip, SkipMany;
    r := PlayPayload(log, INT);
    if r.Answered? && r.out.Payload? {
      var n := Dec(r.out.bytes);
      var err, data := ReadAndForget(log, INT * n);
      if err == Aborted {
        return Abort;
      }
      var ok := PlaySkips(log, n);
      r := if !ok then Abort else if err == OK then Answered(Indices(n, data)) else Answered(Untouched);
    }
  }

  /** Waitall: one probe per request; it leaves at a flip and judges by its last return code. */
  method PlayWaitall(log: CommLog, n: nat) returns (r: Answer)
    requires log.Valid() && n > 0
    modifies log`mode, log`reexecPos, log.table
    ensures log.Valid() && Plays(r, log.Value(), ProbeMany(old(log.Value()), n))
    ensures old(log.reexecPos) == old(log.tableCur) ==>
              r == AskMpi && log.Value() == old(log.Value()).(mode := GenerateLog)
  {
    hide Tiled;
    var i, err := 0, OK;
    while i < n
      invariant i <= n && log.Valid() && log.table == old(log.table)
      invariant i < n ==> ProbeMany(old(log.Value()), n) == ProbeMany(log.Value(), n - i)
      invariant old(log.reexecPos) == old(log.tableCur) ==> i == 0 && log.Value() == old(log.Value())
      invariant i == n ==>
                  ProbeMany(old(log.Value()), n) == if err == Error then Stopped else Replayed(log.Value(), NoOutput)
    {
      AfterValid(log.Value(), Check(log.Value(), 0, Error));
      err := log.ProbeData(0);
      if err == ModeFlip {
        return AskMpi;
      }
      if err == Aborted {
        return Abort;
      }
      i := i + 1;
    }
    r := if err == Error then Abort else Answered(NoOutput);
  }

  method PlaySendrecv(log: CommLog, length: nat) returns (r: Answer)
    requires log.Valid()
    modifies log`mode, log`reexecPos, log.table
    ensures log.Valid() && Plays(r, log.Value(), Read(old(log.Value()), Sendrecv(length)))
    ensures old(log.reexecPos) == old(log.tableCur) ==>
              r == AskMpi && log.Value() == old(log.Value()).(mode := GenerateLog)
  {
    hide Tiled, ReadPayload;
    var err := log.ProbeData(0);
    if err == OK {
      r := PlayPayload(log, length);
      r := if r.Answered? && r.out.Payload? then r else Abort;
    } else {
      r := if err == ModeFlip then AskMpi else if err == Aborted then Abort else Answered(Untouched);
    }
  }

  method PlayEvent(log: CommLog, c: Call) returns (r: Answer)
    requires log.Valid() && (c.Send? || c.Isend?)
    modifies log`mode, log`reexecPos, log.table
    ensures log.Valid() && Plays(r, log.Value(), Read(old(log.Value()), c))
    ensures old(log.reexecPos) == old(log.tableCur) ==>
              r == AskMpi && log.Value() == old(log.Value()).(mode := GenerateLog)
  {
    hide Tiled;
    var err := log.ProbeData(0);
    r := if err == ModeFlip then AskMpi
         else if err == OK || (c.Send? && err != Aborted) then Answered(NoOutput)
         else Abort;
  }

  lemma {:induction false} SlotOrLength(l: Log, c: Call)
    requires LogModel.Valid(l) && (c.Waitall? ==> c.reqs != []) && l.cursor < |l.table|
    ensures l.table[l.cursor].length != Asked(c) ==> Read(l, c) == Stopped
    ensures
      !l.table[l.cursor].completed && l.table[l.cursor].length == Asked(c) ==>
        match c
        case Send => Read(l, c) == Replayed(l, NoOutput)
        case Isend(_, _) => Read(l, c) == Stopped
        case Waitall(_) => Read(l, c) == Stopped
        case Irecv(_, _, true) => Read(l, c) == NeedsMpi
        case _ => Read(l, c) == Replayed(l, Untouched)
  {
    hide LogModel.Valid, Read;
    if l.table[l.cursor].length != Asked(c) {
      WrongLengthStops(l, c);
    } else if !l.table[l.cursor].completed {
      OpenSlotIsAnswered(l, c);
    }
  }

  /** A receive inside the CD goes to MPI; the entry is read all the same. */
  method PlayIrecv(log: CommLog, length: nat, intra: bool, ghost flag: nat) returns (r: Answer)
    requires log.Valid()
    modifies log`mode, log`reexecPos, log.table
    ensures log.Valid() && Plays(r, log.Value(), Read(old(log.Value()), Irecv(flag, length, intra)))
    ensures old(log.reexecPos) == old(log.tableCur) ==>
              r == AskMpi && log.Value() == old(log.Value()).(mode := GenerateLog)
  {
    hide Tiled, ReadPayload;
    if intra {
      var err, _ := log.ReadData(0);
      r := if err == Aborted then Abort else AskMpi;
    } else {
      r := PlayPayload(log, length);
    }
  }

  /** Any call in replay. */
  method PlayCall(log: CommLog, c: Call) returns (r: Answer)
    requires log.Valid() && (c.Waitall? ==> c.reqs != [])
    modifies log`mode, log`reexecPos, log.table
    ensures log.Valid() && Plays(r, log.Value(), Read(old(log.Value()), c))
    ensures old(log.reexecPos) == old(log.tableCur) ==>
              r == AskMpi && log.Value() == old(log.Value()).(mode := GenerateLog)
    ensures
      var at := old(log.reexecPos);
      at < old(log.tableCur) ==>
        var open, fits := !old(log.table[log.reexecPos].completed), old(log.table[log.reexecPos].length) == Asked(c);
        && (!fits ==> r == Abort)
        && (fits && open && (c.Recv? || (c.Irecv? && !c.intra) || c.Sendrecv?) ==>
              r == Answered(Untouched) && log.Value() == old(log.Value()))
        && (fits && open && (c.Test? || c.Testall? || c.Testany? || c.Waitany? || c.Waitsome?) ==>
              r == Answered(Untouched) && log.Value() == old(log.Value()))
        && (fits && open && c.Send? ==> r == Answered(NoOutput) && log.Value() == old(log.Value()))
        && (fits && open && (c.Isend? || c.Waitall?) ==> r == Abort)
  {
    hide LogModel.Valid, ReadPayload, ReadTest, ReadTestany, ReadWaitany, ReadWaitsome, ProbeMany;
    if log.reexecPos < log.tableCur {
      SlotOrLength(log.Value(), c);
    }
    match c
    case Send => r := PlayEvent(log, c);
    case Isend(_, _) => r := PlayEvent(log, c);
    case Recv(n) => r := PlayPayload(log, n);
    case Irecv(f, n, intra) => r := PlayIrecv(log, n, intra, f);
    case Sendrecv(n) => r := PlaySendrecv(log, n);
    case Test(_) => r := PlayTest(log, 1);
    case Testall(fs) => r := PlayTest(log, |fs|);
    case Testany(_) => r := PlayTestany(log);
    case Waitall(fs) => r := PlayWaitall(log, |fs|);
    case Waitany(_) => r := PlayWaitany(log);
    case Waitsome(_) => r := PlayWaitsome(log);
  }

  // ---- logs that move ----

  /** The arrays of the two logs are different ones. */
  ghost predicate Apart(log: CommLog, parent: CommLog)
    reads log, parent
  {
    && log != parent && log.queue != parent.child && log.queue != parent.queue
    && (log.child != null ==> log.child != parent.child && log.child != parent.queue)
  }

  /** The record goes behind the others; a child that records again puts its parent back to recording. */
  method PushLogs(log: CommLog, parent: CommLog, id: CDID, ptrs: Ptrs, ghost rs: seq<Packed>)
    requires log.Valid() && parent.Valid() && Apart(log, parent) && parent.Value().child == PackAll(rs)
    modifies parent`child, parent`childCur, parent.child, parent`generated, parent`mode
    ensures log.Valid() && log.Value() == old(log.Value())
    ensures parent.Valid() && (parent.child == old(parent.child) || fresh(parent.child))
    ensures
      parent.Value() == old(parent.Value()).(
        child := PackAll(rs + [Packed(id, old(log.Img()), ptrs)]), generated := true,
        mode := if log.mode == GenerateLog then GenerateLog else old(parent.mode))
  {
    hide LogModel.Valid, Pack, PackAll;
    log.PackAndPush(parent, id, ptrs);
    PackAllAppend(rs, Packed(id, log.Img(), ptrs));
    parent.generated := true;
    if log.mode == GenerateLog {
      parent.mode := GenerateLog;
    }
    ChildIrrelevant(old(parent.Value()), parent.Value());
  }

  /** CD::CompleteLogs: the log goes to a relaxed parent if there is something new in it, and is emptied. */
  method CompleteLogs(log: CommLog, parent: CommLog, parentRelaxed: bool, id: CDID, ptrs: Ptrs, ghost rs: seq<Packed>)
    requires log.Valid() && parent.Valid() && Apart(log, parent) && parent.Value().child == PackAll(rs)
    modifies log, parent`child, parent`childCur, parent.child, parent`generated, parent`mode
    ensures log.Valid() && log.Value() == EMPTY
    ensures parent.Valid() && (parent.child == old(parent.child) || fresh(parent.child))
    ensures
      var v, r := old(parent.Value()), Packed(id, old(log.Img()), ptrs);
      parent.Value() ==
        if old(log.generated) && parentRelaxed then
          v.(child := PackAll(rs + [r]), generated := true,
             mode := if old(log.mode) == GenerateLog then GenerateLog else v.mode)
        else v
  {
    hide LogModel.Valid, Pack, PackAll;
    if log.generated && parentRelaxed {
      PushLogs(log, parent, id, ptrs, rs);
    }
    log.Reset();
  }

  lemma ChildIrrelevant(l: Log, r: Log)
    requires LogModel.Valid(l) && r == l.(mode := r.mode, generated := r.generated, child := r.child)
    ensures LogModel.Valid(r)
  {
  }

  /** CD::Begin under a parent that replays: the log is pulled from there, or starts empty. */
  method BeginLogs(log: CommLog, parent: CommLog, id: CDID, ghost rs: seq<Packed>) returns (err: Err)
    requires log.Shape() && parent.Shape() && parent != log && parent.mode == ReplayLog
    requires parent.Value().child == PackAll(rs) && forall i :: 0 <= i < |rs| ==> FitsPacked(rs[i])
    modifies log
    ensures log.Shape() && log.mode == ReplayLog
    ensures
      var k := FirstId(rs, id);
      && err == OK
      && if k == |rs| then log.Value() == EMPTY.(mode := ReplayLog)
         else log.Img() == rs[k].img && log.reexecPos == old(log.reexecPos) && log.generated == old(log.generated)
  {
    hide LogModel.Valid, Pack, PackAll, Slice, PackedLength, Unpack, SameCD, Dec, FirstId;
    log.mode := ReplayLog;
    var at;
    err, at := parent.FindChildLogs(id, rs);
    if err == ChildLogNotFound {
      log.Realloc();
      err := OK;
    } else {
      ghost var k := FirstId(rs, id);
      RecordBounds(rs, k);
      WholeBuffer(parent.child[..], parent.childCur, at, rs[k]);
      err := log.UnpackLogs(parent.child, at, id);
    }
  }

  /** Beyond the cursor the buffer may hold anything. */
  lemma {:induction false} WholeBuffer(buf: seq<byte>, n: nat, at: nat, r: Packed)
    requires n <= |buf| && FitsPacked(r) && at + PackedLength(r.img) <= n
    requires Slice(buf[..n], at, PackedLength(r.img)) == Pack(r)
    ensures Unpack(buf, at) == Some(Unpacked(PackedLength(r.img), r.id, r.img, PackedLength(r.img)))
  {
    hide Pack, PackedLength, Unpack;
    assert Slice(buf, at, PackedLength(r.img)) == Slice(buf[..n], at, PackedLength(r.img));
    UnpackPack(buf, at, r);
  }

  /**
    A child's log on its way through a rollback to its parent: completed by the walk and pulled again by the
    re-created child, it is the same log, byte for byte and size for size, unless an earlier record under the
    same ID is in the way; a log with nothing new in it is lost.
   */
  method Recreate(log: CommLog, parent: CommLog, again: CommLog, id: CDID, ptrs: Ptrs, ghost rs: seq<Packed>)
    requires log.Valid() && parent.Valid() && again.Shape() && again != log && again != parent
    requires parent.Value().child == PackAll(rs) && (forall i :: 0 <= i < |rs| ==> FitsPacked(rs[i]))
    requires Apart(log, parent)
    requires again.table != parent.table && again.queue != parent.child && again.child != parent.child
    requires log.generated ==> FitsPacked(Packed(id, log.Img(), ptrs))
    modifies log, parent, parent.child, again
    ensures again.Shape() && again.mode == ReplayLog
    ensures
      var k := FirstId(rs, id);
      if k < |rs| then again.Img() == rs[k].img
      else if old(log.generated) then again.Img() == old(log.Img())
      else again.Value() == EMPTY.(mode := ReplayLog)
  {
    hide LogModel.Valid, Pack, PackAll, FitsPacked, SameCD, FirstId;
    ghost var r := Packed(id, log.Img(), ptrs);
    ghost var all := if log.generated then rs + [r] else rs;
    FirstIdPush(rs, r);
    CompleteLogs(log, parent, true, id, ptrs, rs);
    parent.ReInit();
    var err := BeginLogs(again, parent, id, all);
  }
}
