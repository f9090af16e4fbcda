/** Outstanding requests: what a task's CDs have noted, over whole runs with nested CDs. */
module Requests {
  import opened Bytes
  import opened LogModel
  import opened PackFormat
  import opened CdLogs
  import opened Wrappers
  import opened WholeRun

  /** All notes on the path, the root's first. */
  function Notes(p: seq<Cd>): seq<Incomplete>
  {
    if p == [] then [] else p[0].incomplete + Notes(p[1..])
  }

  function Flags(s: seq<Incomplete>): (r: seq<nat>)
    ensures |r| == |s| && forall i :: 0 <= i < |s| ==> r[i] == s[i].flag
  {
    seq(|s|, i requires 0 <= i < |s| => s[i].flag)
  }

  lemma {:induction false} NotesSplit(p: seq<Cd>, k: nat)
    requires k <= |p|
    ensures Notes(p) == Notes(p[..k]) + Notes(p[k..])
  {
    if k == 0 {
      assert p[..0] == [] && p[0..] == p;
    } else {
      NotesSplit(p[1..], k - 1);
      assert p[1..][..k - 1] == p[..k][1..] && p[1..][k - 1..] == p[k..];
    }
  }

  lemma {:induction false} NotesAt(p: seq<Cd>, k: nat)
    requires k < |p|
    ensures Notes(p) == Notes(p[..k]) + p[k].incomplete + Notes(p[k + 1..])
  {
    NotesSplit(p, k);
    assert p[k..][1..] == p[k + 1..];
  }

  lemma {:induction false} NotesSame(p: seq<Cd>, q: seq<Cd>)
    requires SameNotes(p, q)
    ensures Notes(p) == Notes(q)
  {
    if p != [] {
      NotesSame(p[1..], q[1..]);
    }
  }

  /** A non-blocking call adds its request, at the end. */
  lemma {:induction false} PostNotes(p: seq<Cd>, it: Incomplete, junk: seq<byte>)
    requires ValidPath(p) && it.flag != 0
    ensures Notes(Post(p, it, junk)) == Notes(p) + [it]
  {
    hide Valid, Notes;
    var k := |p| - 1;
    var q := Post(p, it, junk);
    NotesAt(p, k);
    NotesAt(q, k);
    assert q[..k] == p[..k] && q[k + 1..] == p[k + 1..] == [];
    assert Notes([]) == [] by { NoNotes(); }
  }

  lemma NoNotes()
    ensures Notes([]) == []
  {
  }

  /** A completion takes one request with that flag away and nothing else. */
  lemma {:induction false} CompleteNotes(p: seq<Cd>, flag: nat) returns (i: nat)
    requires ValidPath(p) && Complete(p, flag).Some?
    ensures i < |Notes(p)| && Notes(p)[i].flag == flag
    ensures Notes(Complete(p, flag).value) == Remove(Notes(p), i)
  {
    hide Valid, Notes, Complete;
    CompleteDropsNote(p, flag);
    var q := Complete(p, flag).value;
    var k := Holder(p, flag).value;
    var j := FindFlag(p[k].incomplete, flag);
    NotesAt(p, k);
    NotesAt(q, k);
    NotesSame(p[..k], q[..k]);
    NotesSame(p[k + 1..], q[k + 1..]);
    i := |Notes(p[..k])| + j;
  }

  /** A CD that ends hands all its requests to its parent. */
  lemma {:induction false} HandoverNotes(p: seq<Cd>, a: Alloc)
    requires |p| >= 2
    ensures Notes(Handover(p, a)) == Notes(p)
  {
    hide Notes;
    var k := |p| - 2;
    var q := Handover(p, a);
    NotesAt(p, k);
    NotesAt(q, k);
    assert q[..k] == p[..k] && q[k + 1..] == [] && p[k + 1..] == [Top(p)];
    NotesAt(p[k + 1..], 0);
    NoNotes();
    assert [Top(p)][..0] == [] && [Top(p)][1..] == [];
  }

  lemma {:induction false} BeginNotes(p: seq<Cd>, id: CDID)
    ensures Notes(p + [Fresh(id)]) == Notes(p)
  {
    NotesSplit(p + [Fresh(id)], |p|);
    assert (p + [Fresh(id)])[..|p|] == p && (p + [Fresh(id)])[|p|..] == [Fresh(id)];
  }

  // ---- the balance ----

  /** Going from `before` to `after`, `posted` came in and `done` went out. */
  ghost predicate Balance(before: seq<Incomplete>, posted: seq<Incomplete>, done: seq<Incomplete>,
                          after: seq<Incomplete>)
  {
    multiset(after) + multiset(done) == multiset(before) + multiset(posted)
  }

  lemma NothingMoved(s: seq<Incomplete>)
    ensures Balance(s, [], [], s) && Flags([]) == []
  {
  }

  lemma {:induction false} BalanceThen(a: seq<Incomplete>, p: seq<Incomplete>, d: seq<Incomplete>, b: seq<Incomplete>,
                                       p': seq<Incomplete>, d': seq<Incomplete>, c: seq<Incomplete>)
    requires Balance(a, p, d, b) && Balance(b, p', d', c)
    ensures Balance(a, p + p', d + d', c)
    ensures Flags(d + d') == Flags(d) + Flags(d')
    ensures p' == [] ==> p + p' == p
  {
    assert multiset(p + p') == multiset(p) + multiset(p');
    assert multiset(d + d') == multiset(d) + multiset(d');
    var A, B, C := multiset(a), multiset(b), multiset(c);
    var P, P', D, D' := multiset(p), multiset(p'), multiset(d), multiset(d');
    assert C + (D + D') == (C + D') + D;
    assert (B + P') + D == (B + D) + P';
    assert (A + P) + P' == A + (P + P');
  }

  lemma {:induction false} Removed(s: seq<Incomplete>, i: nat)
    requires i < |s|
    ensures multiset(Remove(s, i)) + multiset([s[i]]) == multiset(s)
  {
    assert s == s[..i] + [s[i]] + s[i + 1..];
  }

  lemma {:induction false} CompleteAllNotes(p: seq<Cd>, flags: seq<nat>) returns (done: seq<Incomplete>)
    requires ValidPath(p) && CompleteAll(p, flags).Some?
    ensures Flags(done) == flags
    ensures Balance(Notes(p), [], done, Notes(CompleteAll(p, flags).value))
    decreases |flags|
  {
    hide ValidPath, Notes, Complete, Remove;
    if flags == [] {
      done := [];
    } else {
      var i := CompleteNotes(p, flags[0]);
      var q := Complete(p, flags[0]).value;
      var rest := CompleteAllNotes(q, flags[1..]);
      Removed(Notes(p), i);
      var first := [Notes(p)[i]];
      BalanceThen(Notes(p), [], first, Notes(q), [], rest, Notes(CompleteAll(p, flags).value));
      done := first + rest;
      assert Flags(first) == [flags[0]];
    }
  }

  /** The requests a recorded call starts. */
  function Posts(c: Call, m: Mpi): seq<Incomplete>
  {
    match c
    case Isend(f, intra) => [Incomplete(f, [], false, intra, m.task)]
    case Irecv(f, _, intra) => [Incomplete(f, m.data, true, intra, m.task)]
    case _ => []
  }

  /** The requests MPI reports complete in a recorded call. */
  function Completes(c: Call, m: Mpi): seq<nat>
    requires Legal(c, m)
  {
    match c
    case Test(f) => if m.flag then [f] else []
    case Testall(fs) => if m.flag then fs else []
    case Testany(fs) => if m.flag then [fs[m.index]] else []
    case Waitall(fs) => fs
    case Waitany(fs) => [fs[m.index]]
    case Waitsome(fs) => Pick(fs, m.indices)
    case _ => []
  }

  lemma {:induction false} LogTopNotes(p: seq<Cd>, data: seq<byte>, task: nat)
    requires ValidPath(p)
    ensures Notes(LogTop(p, data, task)) == Notes(p)
  {
    hide ValidPath, Notes, LogTop;
    NotesSame(p, LogTop(p, data, task));
  }

  lemma {:induction false} CompleteOneNotes(p: seq<Cd>, flag: nat) returns (done: seq<Incomplete>)
    requires ValidPath(p) && Complete(p, flag).Some?
    ensures Flags(done) == [flag]
    ensures Balance(Notes(p), [], done, Notes(Complete(p, flag).value))
  {
    hide ValidPath, Notes, Complete, Remove;
    var i := CompleteNotes(p, flag);
    Removed(Notes(p), i);
    done := [Notes(p)[i]];
  }

  lemma {:induction false} GenNotes(p: seq<Cd>, c: Call, m: Mpi) returns (done: seq<Incomplete>)
    requires ValidPath(p) && Legal(c, m) && Gen(p, c, m).Some?
    ensures Flags(done) == Completes(c, m)
    ensures Balance(Notes(p), Posts(c, m), done, Notes(Gen(p, c, m).value))
  {
    hide ValidPath, Notes, Complete, CompleteAll, LogTop, LogAgain, Post, Int, EncInts;
    done := [];
    match c
    case Send => LogTopNotes(p, [], m.task);
    case Recv(_) => LogTopNotes(p, m.data, m.task);
    case Sendrecv(_) =>
      LogTopNotes(p, [], m.task);
      LogTopNotes(LogTop(p, [], m.task), m.data, m.task);
    case Isend(f, intra) => PostNotes(p, Posts(c, m)[0], m.junk);
    case Irecv(f, n, intra) => PostNotes(p, Posts(c, m)[0], m.junk);
    case Test(f) => done := GenTestNotes(p, [f], m);
    case Testall(fs) => done := GenTestNotes(p, fs, m);
    case Testany(fs) => done := GenTestanyNotes(p, fs, m);
    case Waitall(fs) => done := CompleteAllNotes(p, fs);
    case Waitany(fs) =>
      LogTopNotes(p, Int(m.index), 0);
      done := CompleteOneNotes(LogTop(p, Int(m.index), 0), fs[m.index]);
    case Waitsome(fs) =>
      LogTopNotes(p, Int(|m.indices|), 0);
      var q := LogTop(p, Int(|m.indices|), 0);
      LogTopNotes(q, EncInts(m.indices), 0);
      done := CompleteAllNotes(LogTop(q, EncInts(m.indices), 0), Pick(fs, m.indices));
  }

  lemma {:induction false} GenTestNotes(p: seq<Cd>, fs: seq<nat>, m: Mpi) returns (done: seq<Incomplete>)
    requires ValidPath(p) && GenTest(p, fs, m).Some?
    ensures Flags(done) == if m.flag then fs else []
    ensures Balance(Notes(p), [], done, Notes(GenTest(p, fs, m).value))
  {
    hide ValidPath, Notes, CompleteAll, LogTop, LogAgain, Int;
    if m.flag {
      LogTopNotes(p, Int(1), 0);
      done := CompleteAllNotes(LogTop(p, Int(1), 0), fs);
    } else {
      NotesSame(p, GenTest(p, fs, m).value);
      done := [];
    }
  }

  lemma {:induction false} GenTestanyNotes(p: seq<Cd>, fs: seq<nat>, m: Mpi) returns (done: seq<Incomplete>)
    requires ValidPath(p) && (m.flag ==> m.index < |fs|) && GenTestany(p, fs, m).Some?
    ensures Flags(done) == if m.flag then [fs[m.index]] else []
    ensures Balance(Notes(p), [], done, Notes(GenTestany(p, fs, m).value))
  {
    hide ValidPath, Notes, Complete, LogTop, LogAgain, Int;
    if m.flag {
      LogTopNotes(p, Int(1), 0);
      LogTopNotes(LogTop(p, Int(1), 0), Int(m.index), 0);
      done := CompleteOneNotes(LogTop(LogTop(p, Int(1), 0), Int(m.index), 0), fs[m.index]);
    } else {
      NotesSame(p, GenTestany(p, fs, m).value);
      done := [];
    }
  }

  // ---- whole runs ----

  /** Requests started in a run, children's included. */
  function Posted(acts: seq<Act>): seq<Incomplete>
    decreases acts, 0
  {
    if acts == [] then [] else PostedIn(acts[0]) + Posted(acts[1..])
  }

  function PostedIn(a: Act): seq<Incomplete>
    decreases a, 1
  {
    match a case Do(c, m) => Posts(c, m) case Child(_, body, _) => Posted(body)
  }

  /** Requests reported complete in a run, children's included. */
  ghost function Completed(acts: seq<Act>): seq<nat>
    requires LegalActs(acts)
    decreases acts, 0
  {
    if acts == [] then []
    else
      assert LegalAct(acts[0]);
      CompletedIn(acts[0]) + Completed(acts[1..])
  }

  ghost function CompletedIn(a: Act): seq<nat>
    requires LegalAct(a)
    decreases a, 1
  {
    match a case Do(c, m) => Completes(c, m) case Child(_, body, _) => Completed(body)
  }

  /**
    Requests are conserved: whatever the run and its nesting, what is outstanding afterwards together with
    what completed is what was outstanding before together with what was started.
   */
  lemma {:induction false} RunBalance(p: seq<Cd>, acts: seq<Act>) returns (done: seq<Incomplete>)
    requires ValidPath(p) && LegalActs(acts) && RecordRun(p, acts).Some?
    ensures Flags(done) == Completed(acts)
    ensures Balance(Notes(p), Posted(acts), done, Notes(RecordRun(p, acts).value))
    decreases acts
  {
    hide ValidPath, Notes, RecordAct, Balance, PostedIn, CompletedIn, Flags;
    if acts == [] {
      done := [];
      NothingMoved(Notes(p));
    } else {
      assert LegalAct(acts[0]);
      var q := RecordAct(p, acts[0]).value;
      var first := ActBalance(p, acts[0]);
      var rest := RunBalance(q, acts[1..]);
      done := first + rest;
      BalanceThen(Notes(p), PostedIn(acts[0]), first, Notes(q), Posted(acts[1..]), rest,
                  Notes(RecordRun(q, acts[1..]).value));
    }
  }

  lemma {:induction false} ActBalance(p: seq<Cd>, a: Act) returns (done: seq<Incomplete>)
    requires ValidPath(p) && LegalAct(a) && RecordAct(p, a).Some?
    ensures Flags(done) == CompletedIn(a)
    ensures Balance(Notes(p), PostedIn(a), done, Notes(RecordAct(p, a).value))
    decreases a
  {
    hide Valid, ValidCd, Notes, Gen, Handover, Posts, Completes, RecordRun, Posted, Completed, Balance, Flags;
    match a
    case Do(c, m) => done := GenNotes(p, c, m);
    case Child(id, body, alloc) =>
      FreshValid(p, id);
      BeginNotes(p, id);
      done := RunBalance(p + [Fresh(id)], body);
      HandoverNotes(RecordRun(p + [Fresh(id)], body).value, alloc);
  }

  lemma {:induction false} FlagsOfSum(a: seq<Incomplete>, b: seq<Incomplete>)
    ensures multiset(Flags(a + b)) == multiset(Flags(a)) + multiset(Flags(b))
  {
    assert Flags(a + b) == Flags(a) + Flags(b);
  }

  /** Equal multisets of notes have equal multisets of flags. */
  lemma {:induction false} FlagsCongruent(a: seq<Incomplete>, b: seq<Incomplete>)
    requires multiset(a) == multiset(b)
    ensures multiset(Flags(a)) == multiset(Flags(b))
    decreases |a|
  {
    if a == [] {
      assert |multiset(b)| == 0;
    } else {
      assert a[0] in multiset(b);
      var i: nat :| i < |b| && b[i] == a[0];
      Removed(b, i);
      Removed(a, 0);
      assert multiset(Remove(a, 0)) == multiset(a) - multiset([a[0]]);
      assert multiset(Remove(b, i)) == multiset(b) - multiset([b[i]]);
      FlagsCongruent(Remove(a, 0), Remove(b, i));
      FlagsRemoved(a, 0);
      FlagsRemoved(b, i);
    }
  }

  lemma {:induction false} FlagsRemoved(s: seq<Incomplete>, i: nat)
    requires i < |s|
    ensures multiset(Flags(s)) == multiset(Flags(Remove(s, i))) + multiset([s[i].flag])
  {
    assert Flags(s) == Flags(s)[..i] + [s[i].flag] + Flags(s)[i + 1..];
    assert Flags(Remove(s, i)) == Flags(s)[..i] + Flags(s)[i + 1..];
  }

  /** A run that starts with nothing outstanding ends so exactly if it completed each request it started. */
  lemma {:induction false} NothingOutstanding(p: seq<Cd>, acts: seq<Act>)
    requires ValidPath(p) && LegalActs(acts) && RecordRun(p, acts).Some? && Notes(p) == []
    ensures Notes(RecordRun(p, acts).value) == [] <==> multiset(Completed(acts)) == multiset(Flags(Posted(acts)))
  {
    hide ValidPath, Notes, Posted, Completed, RecordRun, LegalActs;
    var done := RunBalance(p, acts);
    var left := Notes(RecordRun(p, acts).value);
    assert multiset(left + done) == multiset(Posted(acts));
    FlagsCongruent(left + done, Posted(acts));
    FlagsOfSum(left, done);
    assert left != [] ==> Flags(left)[0] in multiset(Flags(left));
  }
}
