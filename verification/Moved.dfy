/** What a replay does to the log it reads: the cursor moves, and the counters it passes are back at zero. */
module Moved {
  import opened Bytes
  import opened LogModel
  import opened PackFormat
  import opened Replay
  import opened CdLogs
  import opened Wrappers
  import opened WholeRun
  import opened WholeReplay

  /** From `l` to `r` only the cursor, the counters around it and, at the end, the mode differ. */
  ghost predicate MovedOn(l: Log, r: Log)
  {
    && l.cursor <= r.cursor <= |l.table| == |r.table|
    && r == l.(mode := r.mode, cursor := r.cursor, table := r.table)
    && (r.mode == l.mode || (r.mode == GenerateLog && r.cursor == |r.table|))
    && (forall i :: 0 <= i < |l.table| ==> r.table[i] == l.table[i].(reexec := r.table[i].reexec))
    && (forall i :: 0 <= i < l.cursor ==> r.table[i].reexec == l.table[i].reexec)
    && (forall i :: l.cursor <= i < r.cursor ==> r.table[i].reexec == 0)
  }

  lemma {:induction false} StayPut(l: Log)
    requires l.cursor <= |l.table|
    ensures MovedOn(l, l)
  {
  }

  lemma {:induction false} MoveTwice(l: Log, m: Log, r: Log)
    requires MovedOn(l, m) && MovedOn(m, r)
    ensures MovedOn(l, r)
  {
  }

  lemma {:induction false} MoveAfter(l: Log, err: Err)
    requires Valid(l) && (err == OK ==> l.cursor < |l.table|) && (err == ModeFlip ==> l.cursor == |l.table|)
    ensures MovedOn(l, After(l, err))
  {
    hide Tiled;
    if err == OK {
      assert Live(l.table[l.cursor]);
    }
  }

  lemma {:induction false} CheckOk(l: Log, n: nat, e: Err)
    requires Valid(l) && e != OK && e != ModeFlip
    ensures Check(l, n, e) == OK ==> l.cursor < |l.table|
    ensures Check(l, n, e) == ModeFlip ==> l.cursor == |l.table|
  {
  }

  lemma {:induction false} PayloadMoves(l: Log, n: nat)
    requires Valid(l)
    ensures ReadPayload(l, n).Replayed? ==> MovedOn(l, ReadPayload(l, n).log)
  {
    hide Tiled, MovedOn;
    CheckOk(l, n, Missing);
    MoveAfter(l, Check(l, n, Missing));
  }

  lemma {:induction false} SkipMoves(l: Log, n: nat)
    requires Valid(l)
    ensures Skip(l, n).Some? ==> MovedOn(l, Skip(l, n).value)
  {
    hide Tiled, MovedOn;
    CheckOk(l, n, Error);
    MoveAfter(l, Check(l, n, Error));
  }

  lemma {:induction false} SkipManyMoves(l: Log, n: nat)
    requires Valid(l)
    ensures SkipMany(l, n).Some? ==> MovedOn(l, SkipMany(l, n).value)
    decreases n
  {
    hide MovedOn, Tiled;
    if n == 0 {
      StayPut(l);
    } else {
      SkipMoves(l, 0);
      if Skip(l, 0).Some? {
        var m := Skip(l, 0).value;
        SkipManyMoves(m, n - 1);
        if SkipMany(m, n - 1).Some? {
          MoveTwice(l, m, SkipMany(m, n - 1).value);
        }
      }
    }
  }

  lemma {:induction false} ProbeManyMoves(l: Log, n: nat)
    requires Valid(l) && n > 0
    ensures ProbeMany(l, n).Replayed? ==> MovedOn(l, ProbeMany(l, n).log)
    decreases n
  {
    hide Tiled, MovedOn;
    var err := Check(l, 0, Error);
    CheckOk(l, 0, Error);
    AfterValid(l, err);
    MoveAfter(l, err);
    if n > 1 && err != ModeFlip && err != Aborted {
      var m := After(l, err);
      ProbeManyMoves(m, n - 1);
      if ProbeMany(m, n - 1).Replayed? {
        MoveTwice(l, m, ProbeMany(m, n - 1).log);
      }
    }
  }

  lemma {:induction false} TestMoves(l: Log, n: nat)
    requires Valid(l)
    ensures ReadTest(l, n).Replayed? ==> MovedOn(l, ReadTest(l, n).log)
  {
    hide Valid, MovedOn, ReadPayload, SkipMany, Dec;
    PayloadMoves(l, INT);
    var r := ReadPayload(l, INT);
    if r.Replayed? && r.out.Payload? && Dec(r.out.bytes) == 1 {
      SkipManyMoves(r.log, n);
      if SkipMany(r.log, n).Some? {
        MoveTwice(l, r.log, SkipMany(r.log, n).value);
      }
    }
  }

  lemma {:induction false} TwoSkipsMove(l: Log, n: nat, k: nat)
    requires Valid(l) && Skip(l, n).Some? && SkipMany(Skip(l, n).value, k).Some?
    ensures MovedOn(l, SkipMany(Skip(l, n).value, k).value)
  {
    hide Valid, MovedOn, Skip, SkipMany;
    SkipMoves(l, n);
    SkipManyMoves(Skip(l, n).value, k);
    MoveTwice(l, Skip(l, n).value, SkipMany(Skip(l, n).value, k).value);
  }

  lemma {:induction false} OneIsMany(l: Log)
    requires Valid(l)
    ensures Skip(l, 0) == SkipMany(l, 1)
  {
    hide Valid, Skip;
    if Skip(l, 0).Some? {
      assert SkipMany(Skip(l, 0).value, 0) == Skip(l, 0);
    }
  }

  lemma {:induction false} TestanyMoves(l: Log)
    requires Valid(l)
    ensures ReadTestany(l).Replayed? ==> MovedOn(l, ReadTestany(l).log)
  {
    hide Valid, MovedOn, ReadPayload, Skip, SkipMany, Dec;
    PayloadMoves(l, INT);
    var r := ReadPayload(l, INT);
    if ReadTestany(l).Replayed? && r.Replayed? && r.out.Payload? && Dec(r.out.bytes) == 1 {
      OneIsMany(Skip(r.log, INT).value);
      TwoSkipsMove(r.log, INT, 1);
      MoveTwice(l, r.log, ReadTestany(l).log);
    }
  }

  lemma {:induction false} WaitanyMoves(l: Log)
    requires Valid(l)
    ensures ReadWaitany(l).Replayed? ==> MovedOn(l, ReadWaitany(l).log)
  {
    hide Valid, MovedOn, ReadPayload, Skip, Dec;
    PayloadMoves(l, INT);
    var r := ReadPayload(l, INT);
    if ReadWaitany(l).Replayed? && r.Replayed? && r.out.Payload? {
      SkipMoves(r.log, 0);
      MoveTwice(l, r.log, ReadWaitany(l).log);
    }
  }

  lemma {:induction false} WaitsomeMoves(l: Log)
    requires Valid(l)
    ensures ReadWaitsome(l).Replayed? ==> MovedOn(l, ReadWaitsome(l).log)
  {
    hide Valid, MovedOn, ReadPayload, Skip, SkipMany, Dec;
    PayloadMoves(l, INT);
    var r := ReadPayload(l, INT);
    if ReadWaitsome(l).Replayed? && r.Replayed? && r.out.Payload? {
      var n := Dec(r.out.bytes);
      TwoSkipsMove(r.log, INT * n, n);
      MoveTwice(l, r.log, ReadWaitsome(l).log);
    }
  }

  lemma {:induction false} ReadMoves(l: Log, c: Call)
    requires Valid(l) && (c.Waitall? ==> c.reqs != [])
    ensures Read(l, c).Replayed? ==> MovedOn(l, Read(l, c).log)
  {
    hide Tiled, MovedOn, ReadPayload, ReadTest, ReadTestany, ReadWaitany, ReadWaitsome, ProbeMany;
    CheckOk(l, 0, Error);
    MoveAfter(l, Check(l, 0, Error));
    match c
    case Send =>
    case Isend(_, _) =>
    case Recv(n) => PayloadMoves(l, n);
    case Irecv(_, n, _) => PayloadMoves(l, n);
    case Sendrecv(n) =>
      AfterValid(l, Check(l, 0, Error));
      if Check(l, 0, Error) == OK {
        PayloadMoves(Advance(l), n);
        if ReadPayload(Advance(l), n).Replayed? {
          MoveTwice(l, Advance(l), ReadPayload(Advance(l), n).log);
        }
      }
    case Test(_) => TestMoves(l, 1);
    case Testall(fs) => TestMoves(l, |fs|);
    case Testany(_) => TestanyMoves(l);
    case Waitall(fs) => ProbeManyMoves(l, |fs|);
    case Waitany(_) => WaitanyMoves(l);
    case Waitsome(_) => WaitsomeMoves(l);
  }

  lemma {:induction false} RerunMoves(l: Log, kids: seq<Tree>, acts: seq<Act>)
    requires Valid(l) && LegalActs(acts) && Rerun(l, kids, acts).Some?
    ensures MovedOn(l, Rerun(l, kids, acts).value.0)
    decreases |acts|
  {
    hide MovedOn, Tiled, LegalAct, RerunAct;
    if acts == [] {
      StayPut(l);
    } else {
      LegalSplit(acts);
      RerunActMoves(l, kids, acts[0]);
      var m := RerunAct(l, kids, acts[0]).value.0;
      RerunMoves(m, kids, acts[1..]);
      MoveTwice(l, m, Rerun(m, kids, acts[1..]).value.0);
    }
  }

  lemma {:induction false} RerunActMoves(l: Log, kids: seq<Tree>, a: Act)
    requires Valid(l) && LegalAct(a) && RerunAct(l, kids, a).Some?
    ensures MovedOn(l, RerunAct(l, kids, a).value.0)
  {
    hide MovedOn, Tiled, Read, Rerun;
    match a
    case Do(c, _) => ReadMoves(l, c);
    case Child(_, _, _) => StayPut(l);
  }

  /** Read to its end, a rewound log is as it was, but for the cursor. */
  lemma {:induction false} ReadToTheEnd(l: Log, kids: seq<Tree>, acts: seq<Act>)
    requires Valid(l) && Rewound(l) && LegalActs(acts) && Rerun(l, kids, acts).Some?
    requires Remaining(Rerun(l, kids, acts).value.0) == []
    ensures
      var r := Rerun(l, kids, acts).value.0;
      r == l.(mode := r.mode, cursor := |l.table|)
  {
    hide Tiled, LegalActs, Rerun;
    RerunMoves(l, kids, acts);
    var r := Rerun(l, kids, acts).value.0;
    assert r.cursor == |r.table|;
    assert r.table == l.table;
  }
}
