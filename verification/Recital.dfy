/**
  Which calls a finished record answers. A log whose requests all have their own data is, to whoever reads it, a
  list of byte strings; calls get their recorded answers from it exactly if what they owe their own log is what
  the list says.
 */
module Recital {
  import opened Bytes
  import opened LogModel
  import opened PackFormat
  import opened Replay
  import opened CdLogs
  import opened Wrappers
  import opened WholeRun
  import opened WholeReplay

  // ---- a log as a list of byte strings ----

  function Wording(i: Ideal): seq<byte>
  {
    match i case Fixed(x) => x case Slot(_, x) => x
  }

  function Text(ideals: seq<Ideal>): (t: seq<seq<byte>>)
    ensures |t| == |ideals|
  {
    seq(|ideals|, i requires 0 <= i < |ideals| => Wording(ideals[i]))
  }

  /** The reads ahead are answered with these strings; no slot is open. */
  ghost predicate Tells(l: Log, text: seq<seq<byte>>)
  {
    && Valid(l) && |Remaining(l)| == |text|
    && forall i :: 0 <= i < |text| ==> Remaining(l)[i].Data? && Remaining(l)[i].payload == text[i]
  }

  lemma {:induction false} DeliveredTells(l: Log, ideals: seq<Ideal>)
    requires Valid(l) && DeliveredAll(Remaining(l), ideals)
    ensures Tells(l, Text(ideals))
  {
    hide Valid, Remaining;
    forall i | 0 <= i < |ideals|
      ensures Remaining(l)[i].Data? && Remaining(l)[i].payload == Text(ideals)[i]
    {
      assert Delivered(Remaining(l)[i], ideals[i]);
    }
  }

  lemma {:induction false} TellsNext(l: Log, text: seq<seq<byte>>)
    requires Tells(l, text) && text != []
    ensures l.cursor < |l.table| && Got(l) == text[0]
    ensures Tells(Advance(l), text[1..]) && Advance(l).mode == l.mode
    ensures forall n: nat, e :: Check(l, n, e) == if n == |text[0]| then OK else Aborted
  {
    hide Valid, Remaining, Advance;
    var items := Remaining(l);
    assert items == [items[0]] + items[1..];
    ReadNext(l, items[0], items[1..]);
    CheckLength(l, |text[0]|);
    forall i | 0 <= i < |text| - 1
      ensures items[1..][i].Data? && items[1..][i].payload == text[1..][i]
    {
      assert items[1..][i] == items[i + 1];
    }
  }

  lemma CheckLength(l: Log, n: nat)
    requires l.cursor < |l.table| && forall e :: Check(l, n, e) == OK
    ensures forall k: nat, e :: Check(l, k, e) == if k == n then OK else Aborted
  {
    assert Check(l, n, Error) == OK && Check(l, n, Missing) == OK;
  }

  lemma {:induction false} TellsNothing(l: Log)
    requires Tells(l, [])
    ensures forall n: nat, e :: Check(l, n, e) == ModeFlip
    ensures Tells(After(l, ModeFlip), [])
  {
    hide Tiled, LogModel.Payload;
    assert Remaining(l) == [];
    assert l.cursor == |l.table|;
  }

  function Rest(text: seq<seq<byte>>, n: nat): seq<seq<byte>>
  {
    if n <= |text| then text[n..] else []
  }

  /** Reading on for `n` strings; whoever reads past the end is back to recording. */
  ghost predicate ReadsOn(l: Log, r: Log, text: seq<seq<byte>>, n: nat)
  {
    Tells(r, Rest(text, n)) && r.mode == if n <= |text| then l.mode else GenerateLog
  }

  function Blanks(n: nat): (s: seq<seq<byte>>)
    ensures |s| == n && forall i :: 0 <= i < n ==> s[i] == []
  {
    seq(n, _ => [])
  }

  /** `w` is what the text says next; its last `loose` strings may be missing if the text ends there. */
  ghost predicate Hears(text: seq<seq<byte>>, w: seq<seq<byte>>, loose: nat)
  {
    w <= text || (text <= w && |w| - |text| <= loose)
  }

  // ---- the reads of one call ----

  lemma {:induction false} PayloadTells(l: Log, text: seq<seq<byte>>, n: nat)
    requires Tells(l, text)
    ensures
      var r := ReadPayload(l, n);
      if text == [] then r == NeedsMpi
      else if |text[0]| != n then r == Stopped
      else r == Replayed(r.log, Payload(text[0])) && ReadsOn(l, r.log, text, 1)
  {
    hide Tells, Valid, Advance, Check;
    TellsIsValid(l, text);
    if text == [] {
      TellsNothing(l);
    } else {
      TellsNext(l, text);
    }
  }

  lemma TellsIsValid(l: Log, text: seq<seq<byte>>)
    requires Tells(l, text)
    ensures Valid(l)
  {
  }

  lemma {:induction false} SkipTells(l: Log, text: seq<seq<byte>>, n: nat)
    requires Tells(l, text)
    ensures Valid(l) && (Skip(l, n).Some? <==> text == [] || |text[0]| == n)
    ensures Skip(l, n).Some? ==> ReadsOn(l, Skip(l, n).value, text, 1)
  {
    hide Tells, Valid, Advance, Check;
    TellsIsValid(l, text);
    if text == [] {
      TellsNothing(l);
    } else {
      TellsNext(l, text);
    }
  }

  lemma {:induction false} SkipManyTells(l: Log, text: seq<seq<byte>>, n: nat)
    requires Tells(l, text)
    ensures Valid(l) && (SkipMany(l, n).Some? <==> Hears(text, Blanks(n), n))
    ensures SkipMany(l, n).Some? ==> ReadsOn(l, SkipMany(l, n).value, text, n)
    decreases n
  {
    hide Tells, Valid, Skip;
    TellsIsValid(l, text);
    if n > 0 {
      SkipTells(l, text, 0);
      BlanksNext(text, n);
      if Skip(l, 0).Some? {
        SkipManyTells(Skip(l, 0).value, Rest(text, 1), n - 1);
        assert Rest(Rest(text, 1), n - 1) == Rest(text, n);
      }
    }
  }

  lemma {:induction false} BlanksNext(text: seq<seq<byte>>, n: nat)
    requires n > 0
    ensures Hears(text, Blanks(n), n) <==> (text == [] || text[0] == []) && Hears(Rest(text, 1), Blanks(n - 1), n - 1)
    ensures Blanks(n) <= text <==> text != [] && text[0] == [] && Blanks(n - 1) <= text[1..]
  {
    var b, c := Blanks(n), Blanks(n - 1);
    assert b == [[]] + c;
    if text != [] {
      assert text == [text[0]] + text[1..];
      assert b <= text <==> text[0] == [] && c <= text[1..];
      assert text <= b <==> text[0] == [] && text[1..] <= c;
    }
  }

  lemma {:induction false} ProbeManyTells(l: Log, text: seq<seq<byte>>, n: nat)
    requires Tells(l, text) && n > 0
    ensures Valid(l) && (ProbeMany(l, n).Replayed? <==> Blanks(n) <= text)
    ensures ProbeMany(l, n).Replayed? ==> ProbeMany(l, n).out == NoOutput && ReadsOn(l, ProbeMany(l, n).log, text, n)
    decreases n
  {
    hide Tells, Valid, Advance, Check;
    TellsIsValid(l, text);
    BlanksNext(text, n);
    if text == [] {
      TellsNothing(l);
    } else {
      TellsNext(l, text);
      if n > 1 && text[0] == [] {
        ProbeManyTells(Advance(l), text[1..], n - 1);
      }
    }
  }

  // ---- one call ----

  /** The completion events at the end of a call's records, whose absence its wrapper does not notice. */
  function Loose(c: Call, m: Mpi): nat
  {
    match c
    case Test(_) => if m.flag then 1 else 0
    case Testall(fs) => if m.flag then |fs| else 0
    case Testany(_) => if m.flag then 1 else 0
    case Waitany(_) => 1
    case Waitsome(_) => |m.indices|
    case _ => 0
  }

  /** A read sequence is answered as recorded exactly if the text says `w` next, and then goes on behind it. */
  ghost predicate Answered(l: Log, r: Replayed, out: Output, text: seq<seq<byte>>, w: seq<seq<byte>>, loose: nat)
  {
    var good := r.Replayed? && r.out == out;
    (good <==> Hears(text, w, loose)) && (good ==> ReadsOn(l, r.log, text, |w|))
  }

  lemma {:induction false} HearsNext(text: seq<seq<byte>>, a: seq<byte>, v: seq<seq<byte>>, loose: nat)
    requires loose <= |v|
    ensures Hears(text, [a] + v, loose) <==> text != [] && text[0] == a && Hears(text[1..], v, loose)
    ensures text != [] ==> Rest(text, |v| + 1) == Rest(text[1..], |v|)
  {
    if text != [] {
      assert text == [text[0]] + text[1..];
      assert [a] + v <= text <==> text[0] == a && v <= text[1..];
      assert text <= [a] + v <==> text[0] == a && text[1..] <= v;
    }
  }

  lemma {:induction false} HearsAll(text: seq<seq<byte>>, w: seq<seq<byte>>)
    ensures Hears(text, w, 0) <==> w <= text
  {
    if text <= w && |w| - |text| <= 0 {
      assert w == text;
    }
  }

  lemma {:induction false} IsInt(s: seq<byte>, x: nat)
    requires |s| == INT && x < U32
    ensures Dec(s) == x <==> s == Int(x)
  {
    hide Dec, Int;
    if Dec(s) == x {
      DecInjective(s, Int(x));
    }
  }

  lemma {:induction false} OneTells(l: Log, text: seq<seq<byte>>, c: Call, m: Mpi)
    requires Tells(l, text) && Legal(c, m) && (c.Send? || c.Recv? || c.Isend? || c.Irecv?) && !Reissued(c)
    ensures Valid(l) && Answered(l, Read(l, c), OutputOf(c, m), text, Text(Trace(c, m)), 0)
  {
    hide Tells, Valid, Advance, Check, Hears;
    TellsIsValid(l, text);
    var x := if c.Send? || c.Isend? then [] else m.data;
    assert Text(Trace(c, m)) == [x] + [];
    HearsNext(text, x, [], 0);
    assert text != [] ==> Hears(text[1..], [], 0) by { HearsAll(Rest(text, 1), []); }
    if text == [] {
      TellsNothing(l);
    } else {
      TellsNext(l, text);
    }
  }

  lemma {:induction false} SendrecvTells(l: Log, text: seq<seq<byte>>, n: nat, data: seq<byte>)
    requires Tells(l, text) && |data| == n
    ensures Valid(l) && Answered(l, Read(l, Sendrecv(n)), Payload(data), text, [[], data], 0)
  {
    hide Tells, Valid, Advance, Check, Hears, ReadPayload;
    TellsIsValid(l, text);
    assert [[], data] == [[]] + [data] && [data] == [data] + [];
    HearsNext(text, [], [data], 0);
    if text == [] {
      TellsNothing(l);
    } else {
      TellsNext(l, text);
      var next := text[1..];
      HearsNext(next, data, [], 0);
      assert next != [] ==> Hears(next[1..], [], 0) by { HearsAll(Rest(next, 1), []); }
      if text[0] == [] {
        PayloadTells(Advance(l), next, n);
      }
    }
  }

  lemma {:induction false} TestTells(l: Log, text: seq<seq<byte>>, n: nat, flag: bool)
    requires Tells(l, text)
    ensures
      var w := if flag then [Int(1)] + Blanks(n) else [Int(0)];
      Valid(l) && Answered(l, ReadTest(l, n), Flag(Bit(flag)), text, w, if flag then n else 0)
  {
    hide Tells, Valid, Hears, ReadPayload, SkipMany, Dec, Int;
    TellsIsValid(l, text);
    PayloadTells(l, text, INT);
    assert [Int(0)] == [Int(0)] + [];
    HearsNext(text, Int(1), Blanks(n), n);
    HearsNext(text, Int(0), [], 0);
    if text != [] && |text[0]| == INT {
      IsInt(text[0], 0);
      IsInt(text[0], 1);
      assert Hears(text[1..], [], 0) by { HearsAll(text[1..], []); }
      SkipManyTells(ReadPayload(l, INT).log, text[1..], n);
    }
  }

  lemma {:induction false} WaitanyTells(l: Log, text: seq<seq<byte>>, index: nat)
    requires Tells(l, text) && index < U32
    ensures Valid(l) && Answered(l, ReadWaitany(l), Index(index), text, [Int(index), []], 1)
  {
    hide Tells, Valid, Hears, ReadPayload, Skip, Dec, Int;
    TellsIsValid(l, text);
    PayloadTells(l, text, INT);
    assert [Int(index), []] == [Int(index)] + [[]];
    HearsNext(text, Int(index), [[]], 1);
    if text != [] && |text[0]| == INT {
      IsInt(text[0], index);
      SkipTells(ReadPayload(l, INT).log, text[1..], 0);
      HearsBlank(text[1..]);
    }
  }

  lemma {:induction false} HearsBlank(text: seq<seq<byte>>)
    ensures Hears(text, [[]], 1) <==> text == [] || text[0] == []
  {
    if text != [] {
      assert text == [text[0]] + text[1..];
    }
  }

  lemma {:induction false} TestanyTells(l: Log, text: seq<seq<byte>>, flag: bool, index: nat)
    requires Tells(l, text) && (flag ==> index < U32)
    ensures
      var w := if flag then [Int(1), Int(index), []] else [Int(0)];
      && Valid(l)
      && Answered(l, ReadTestany(l), if flag then FlagIndex(1, index) else Flag(0), text, w, if flag then 1 else 0)
  {
    hide Tells, Valid, Hears, ReadPayload, Skip, Dec, Int, Check;
    TellsIsValid(l, text);
    PayloadTells(l, text, INT);
    assert [Int(0)] == [Int(0)] + [];
    assert [Int(1), Int(index), []] == [Int(1)] + [Int(index), []];
    HearsNext(text, Int(1), [Int(index), []], 1);
    HearsNext(text, Int(0), [], 0);
    if text != [] && |text[0]| == INT {
      IsInt(text[0], 0);
      IsInt(text[0], 1);
      assert Hears(text[1..], [], 0) by { HearsAll(text[1..], []); }
      IndexTells(ReadPayload(l, INT).log, text[1..], flag, index);
    }
  }

  /** The index and its event, after a flag that was set. */
  lemma {:induction false} IndexTells(l: Log, text: seq<seq<byte>>, flag: bool, index: nat)
    requires Tells(l, text) && (flag ==> index < U32)
    ensures Valid(l)
    ensures
      var s := Skip(l, INT);
      var ok := s.Some? && Skip(s.value, 0).Some?;
      && (ok && Check(l, INT, Error) == OK ==> text != [] && |text[0]| == INT && Got(l) == text[0])
      && (flag ==>
            && (Hears(text, [Int(index), []], 1) <==> ok && Check(l, INT, Error) == OK && Dec(Got(l)) == index)
            && (Hears(text, [Int(index), []], 1) ==> ReadsOn(l, Skip(s.value, 0).value, text, 2)))
  {
    hide Tells, Valid, Hears, Skip, Dec, Int, Check;
    TellsIsValid(l, text);
    SkipTells(l, text, INT);
    if text == [] {
      TellsNothing(l);
    } else {
      TellsNext(l, text);
    }
    assert [Int(index), []] == [Int(index)] + [[]];
    HearsNext(text, Int(index), [[]], 1);
    if flag && text != [] && |text[0]| == INT {
      IsInt(text[0], index);
      SkipTells(Skip(l, INT).value, text[1..], 0);
      HearsBlank(text[1..]);
    }
  }

  lemma {:induction false} WaitsomeTells(l: Log, text: seq<seq<byte>>, xs: seq<nat>)
    requires Tells(l, text) && |xs| < U32
    ensures
      var w := [Int(|xs|), EncInts(xs)] + Blanks(|xs|);
      Valid(l) && Answered(l, ReadWaitsome(l), Indices(|xs|, EncInts(xs)), text, w, |xs|)
  {
    hide Tells, Valid, Hears, ReadPayload, Skip, SkipMany, Dec, Int, Check, EncInts;
    TellsIsValid(l, text);
    PayloadTells(l, text, INT);
    var n, e := |xs|, EncInts(xs);
    assert [Int(n), e] + Blanks(n) == [Int(n)] + ([e] + Blanks(n));
    HearsNext(text, Int(n), [e] + Blanks(n), n);
    if text != [] && |text[0]| == INT {
      IsInt(text[0], n);
      IndicesTell(ReadPayload(l, INT).log, text[1..], xs);
    }
  }

  /** The indices and their events, after the count. */
  lemma {:induction false} IndicesTell(l: Log, text: seq<seq<byte>>, xs: seq<nat>)
    requires Tells(l, text)
    ensures Valid(l)
    ensures
      var n, w := |xs|, [EncInts(xs)] + Blanks(|xs|);
      var s := Skip(l, INT * n);
      var ok := s.Some? && SkipMany(s.value, n).Some?;
      && (Hears(text, w, n) <==> ok && Check(l, INT * n, Error) == OK && Got(l) == EncInts(xs))
      && (Hears(text, w, n) ==> ReadsOn(l, SkipMany(s.value, n).value, text, n + 1))
  {
    hide Tells, Valid, Hears, Skip, SkipMany, Check, EncInts;
    TellsIsValid(l, text);
    var n, e := |xs|, EncInts(xs);
    SkipTells(l, text, INT * n);
    HearsNext(text, e, Blanks(n), n);
    if text == [] {
      TellsNothing(l);
    } else {
      TellsNext(l, text);
      if |text[0]| == INT * n {
        SkipManyTells(Skip(l, INT * n).value, text[1..], n);
      }
    }
  }

  lemma {:induction false} NoEvents(n: nat)
    ensures Text(Events(n)) == Blanks(n)
  {
  }

  /** Any call: it is answered as recorded exactly if the text says next what the call owes its own log. */
  lemma {:induction false} CallTells(l: Log, text: seq<seq<byte>>, c: Call, m: Mpi)
    requires Tells(l, text) && Legal(c, m) && !Reissued(c)
    ensures Valid(l) && Answered(l, Read(l, c), OutputOf(c, m), text, Text(Trace(c, m)), Loose(c, m))
  {
    hide Tells, Answered, ReadPayload, ReadTest, ReadTestany, ReadWaitany, ReadWaitsome, ProbeMany, EncInts, Int;
    match c
    case Send => OneTells(l, text, c, m);
    case Recv(_) => OneTells(l, text, c, m);
    case Isend(_, _) => OneTells(l, text, c, m);
    case Irecv(_, _, _) => OneTells(l, text, c, m);
    case Sendrecv(n) =>
      assert Text(Trace(c, m)) == [[], m.data];
      SendrecvTells(l, text, n, m.data);
    case Test(_) =>
      assert Text(Trace(c, m)) == if m.flag then [Int(1)] + Blanks(1) else [Int(0)];
      TestTells(l, text, 1, m.flag);
    case Testall(fs) =>
      assert Text(Trace(c, m)) == if m.flag then [Int(1)] + Blanks(|fs|) else [Int(0)];
      TestTells(l, text, |fs|, m.flag);
    case Testany(_) =>
      assert Text(Trace(c, m)) == if m.flag then [Int(1), Int(m.index), []] else [Int(0)];
      TestanyTells(l, text, m.flag, m.index);
    case Waitall(fs) =>
      NoEvents(|fs|);
      WaitallTells(l, text, |fs|);
    case Waitany(_) =>
      assert Text(Trace(c, m)) == [Int(m.index), []];
      WaitanyTells(l, text, m.index);
    case Waitsome(_) =>
      assert Text(Trace(c, m)) == [Int(|m.indices|), EncInts(m.indices)] + Blanks(|m.indices|);
      WaitsomeTells(l, text, m.indices);
  }

  lemma {:induction false} WaitallTells(l: Log, text: seq<seq<byte>>, n: nat)
    requires Tells(l, text) && n > 0
    ensures Valid(l) && Answered(l, ProbeMany(l, n), NoOutput, text, Blanks(n), 0)
  {
    hide Tells, Valid, ProbeMany;
    ProbeManyTells(l, text, n);
    HearsAll(text, Blanks(n));
  }

  /** What each call owes its log, byte for byte. */
  lemma {:induction false} OwedText(c: Call, m: Mpi)
    requires Legal(c, m)
    ensures
      var text := Text(Trace(c, m));
      match c
      case Send => text == [[]]
      case Isend(_, _) => text == [[]]
      case Recv(_) => text == [m.data]
      case Irecv(_, _, _) => text == [m.data]
      case Sendrecv(_) => text == [[], m.data]
      case Test(_) => text == if m.flag then [[1, 0, 0, 0], []] else [[0, 0, 0, 0]]
      case Testall(fs) => text == if m.flag then [[1, 0, 0, 0]] + Blanks(|fs|) else [[0, 0, 0, 0]]
      case Testany(_) => text == if m.flag then [[1, 0, 0, 0], Enc(m.index, 4), []] else [[0, 0, 0, 0]]
      case Waitall(fs) => text == Blanks(|fs|)
      case Waitany(_) => text == [Enc(m.index, 4), []]
      case Waitsome(_) => text == [Enc(|m.indices|, 4), EncInts(m.indices)] + Blanks(|m.indices|)
  {
    hide Int, Enc, EncInts;
    SmallInts();
    IntIs(m.index);
    IntIs(|m.indices|);
    if c.Test? {
      assert Blanks(1) == [[]];
    }
  }

  /** The array of indices, as it lies in memory. */
  lemma {:induction false} IndicesInMemory(xs: seq<nat>, i: nat)
    requires i < |xs|
    ensures |EncInts(xs)| == 4 * |xs| && EncInts(xs)[4 * i..4 * i + 4] == Enc(xs[i], 4)
    decreases i
  {
    hide Enc, Int;
    IntIs(xs[0]);
    assert EncInts(xs) == Int(xs[0]) + EncInts(xs[1..]);
    if i > 0 {
      IndicesInMemory(xs[1..], i - 1);
      assert EncInts(xs)[4 * i..4 * i + 4] == EncInts(xs[1..])[4 * (i - 1)..4 * (i - 1) + 4];
    }
  }

  // ---- the acts of one CD ----

  /** What the last act leaves to chance. */
  function LooseEnd(acts: seq<Act>): nat
  {
    if acts == [] || acts[|acts| - 1].Child? then 0 else Loose(acts[|acts| - 1].call, acts[|acts| - 1].mpi)
  }

  lemma {:induction false} LooseIsShort(c: Call, m: Mpi)
    requires Legal(c, m)
    ensures Loose(c, m) < |Trace(c, m)|
  {
    hide Int, EncInts;
  }

  lemma {:induction false} LooseEndIsShort(acts: seq<Act>)
    requires LegalActs(acts)
    ensures LooseEnd(acts) <= |OwnTrace(acts)| && (LooseEnd(acts) > 0 ==> LooseEnd(acts) < |OwnTrace(acts)|)
  {
    hide OwnTrace, Trace, Loose;
    if acts != [] {
      var n := |acts| - 1;
      var a := acts[n];
      assert LegalAct(a);
      assert acts == acts[..n] + [a];
      OwnTraceAppend(acts[..n], [a]);
      OneTrace(a);
      if a.Do? {
        LooseIsShort(a.call, a.mpi);
      }
    }
  }

  lemma OneTrace(a: Act)
    ensures OwnTrace([a]) == ActTrace(a)
  {
    assert [a][1..] == [];
    assert ActTrace(a) + [] == ActTrace(a);
  }

  /** What the acts would have logged themselves is what the text says. */
  ghost predicate Follows(text: seq<seq<byte>>, acts: seq<Act>)
  {
    Hears(text, Text(OwnTrace(acts)), LooseEnd(acts))
  }

  lemma {:induction false} FollowsNext(text: seq<seq<byte>>, acts: seq<Act>)
    requires acts != [] && LegalActs(acts)
    ensures
      var w, tail := Text(ActTrace(acts[0])), acts[1..];
      && (acts[0].Child? ==> w == [])
      && (w <= text ==> (Follows(text, acts) <==> Follows(text[|w|..], tail)))
      && (!(w <= text) ==> (Follows(text, acts) <==> tail == [] && Hears(text, w, LooseEnd([acts[0]]))))
      && |OwnTrace(acts)| == |w| + |OwnTrace(tail)|
  {
    hide ActTrace, OwnTrace, Loose;
    var a, tail := acts[0], acts[1..];
    var w, v := Text(ActTrace(a)), Text(OwnTrace(tail));
    assert acts == [a] + tail;
    OwnTraceAppend([a], tail);
    OneTrace(a);
    assert Text(OwnTrace(acts)) == w + v;
    assert LegalActs(tail);
    LooseEndIsShort(tail);
    NoActTrace(a);
    HearsMore(text, w, v, LooseEnd(tail));
    if tail == [] {
      assert v == [] by { NothingTraced(); }
      assert acts == [a] && w + v == w;
      if w <= text {
        FollowsRest(text, w, LooseEnd(acts));
      }
    } else {
      assert LooseEnd(acts) == LooseEnd(tail);
    }
  }

  lemma NoActTrace(a: Act)
    ensures a.Child? ==> ActTrace(a) == []
  {
  }

  lemma NothingTraced()
    ensures OwnTrace([]) == []
  {
  }

  lemma {:induction false} HearsMore(text: seq<seq<byte>>, w: seq<seq<byte>>, v: seq<seq<byte>>, loose: nat)
    requires loose <= |v|
    ensures w <= text ==> (Hears(text, w + v, loose) <==> Hears(text[|w|..], v, loose))
    ensures !(w <= text) ==> !Hears(text, w + v, loose)
  {
    var z := w + v;
    if w <= text {
      assert text == w + text[|w|..];
      assert z <= text <==> v <= text[|w|..];
      assert text <= z <==> text[|w|..] <= v;
    }
  }

  lemma {:induction false} FollowsRest(text: seq<seq<byte>>, w: seq<seq<byte>>, loose: nat)
    requires w <= text
    ensures Hears(text, w, loose) && Hears(text[|w|..], [], 0)
  {
  }

  /**
    From any point of a replay with no slot open ahead: the acts get their recorded answers exactly if the text
    says what they would have logged themselves, no receive stays inside the CD, and each child CD is answered
    from the record it pulls. Then as much of the text is left as they did not use.
   */
  lemma {:induction false} TextReplays(l: Log, text: seq<seq<byte>>, kids: seq<Tree>, acts: seq<Act>)
    requires Tells(l, text) && l.mode == ReplayLog && LegalActs(acts)
    ensures Valid(l)
    ensures Good(l, kids, acts) <==> OwnCallsPlay(acts) && GoodKids(kids, acts) && Follows(text, acts)
    ensures Good(l, kids, acts) ==> ReadsOn(l, Rerun(l, kids, acts).value.0, text, |OwnTrace(acts)|)
    decreases |acts|
  {
    hide Valid, Tells, LegalAct, GoodKid, RerunAct, ActOutputs, ActTrace, Follows, Text, OwnTrace;
    TellsIsValid(l, text);
    if acts == [] {
      NothingFollows(text);
    } else {
      var a, tail := acts[0], acts[1..];
      GoodSplit(l, kids, acts);
      TailOfActs(kids, acts);
      FollowsNext(text, acts);
      var w := Text(ActTrace(a));
      if a.Child? {
        GoodKidIs(l, kids, a);
        TextReplays(l, text, kids, tail);
      } else {
        DoTells(l, text, kids, a);
        if w <= text {
          if GoodAct(l, kids, a) {
            var r := RerunAct(l, kids, a).value.0;
            TextReplays(r, text[|w|..], kids, tail);
            ReadOnTwice(l, r, text, |w|, |OwnTrace(tail)|);
          }
        } else if GoodAct(l, kids, a) {
          var r := RerunAct(l, kids, a).value.0;
          PastText(l, r, text, w, LooseEnd([a]));
          if Good(r, kids, tail) {
            FlipIsLast(r, kids, tail);
            NothingTraced();
          }
          if tail == [] {
            assert Rerun(r, kids, tail) == Some((r, [])) && Outputs([]) == [] by { NoActs(); }
          }
        }
      }
    }
  }

  lemma {:induction false} NothingFollows(text: seq<seq<byte>>)
    ensures Follows(text, []) && OwnTrace([]) == [] && Rest(text, 0) == text
  {
  }

  lemma {:induction false} DoTells(l: Log, text: seq<seq<byte>>, kids: seq<Tree>, a: Act)
    requires Tells(l, text) && LegalAct(a) && a.Do?
    ensures Valid(l)
    ensures GoodAct(l, kids, a) <==> !Reissued(a.call) && Hears(text, Text(ActTrace(a)), LooseEnd([a]))
    ensures GoodAct(l, kids, a) ==> ReadsOn(l, RerunAct(l, kids, a).value.0, text, |ActTrace(a)|)
  {
    hide Tells, Trace, Loose, Hears, ReadsOn, OutputOf, Text;
    TellsIsValid(l, text);
    if !Reissued(a.call) {
      hide Read;
      CallTells(l, text, a.call, a.mpi);
    }
  }

  lemma {:induction false} ReadOnTwice(l: Log, r: Log, text: seq<seq<byte>>, n: nat, k: nat)
    requires n <= |text|
    ensures forall s: Log :: ReadsOn(l, r, text, n) && ReadsOn(r, s, text[n..], k) ==> ReadsOn(l, s, text, n + k)
  {
    hide Tells;
    assert Rest(text[n..], k) == Rest(text, n + k);
  }

  lemma {:induction false} PastText(l: Log, r: Log, text: seq<seq<byte>>, w: seq<seq<byte>>, loose: nat)
    requires ReadsOn(l, r, text, |w|) && Hears(text, w, loose) && !(w <= text)
    ensures Valid(r) && r.mode == GenerateLog && Remaining(r) == []
  {
    hide Valid, Remaining;
  }
}
