/** Rollback in one task: error detection, Complete, and what the recovery walk does to its path of CDs. */
module Recovery {
  import opened Bytes
  import opened RollbackCells
  import CdLogs
  import LogRollback

  // ---- one CD, one task: CD::GetCDToRecover without its recursion ----

  /** Re-execute here, leave for the parent, or the invalid-escalation error; with the task's cell after it. */
  datatype Visit = Here(cell: nat) | Up(cell: nat) | Broken

  /** SyncCDs or a look at one's own cell; `others` is the least of the other tasks' cells. */
  function Synced(size: nat, cell: nat, collective: bool, others: nat): nat
  {
    if !collective then cell else if size > 1 then Min(cell, others) else INVALID
  }

  function VisitCd(level: nat, size: nat, cell: nat, collective: bool, others: nat): Visit
  {
    var agreed := Synced(size, cell, collective, others);
    if level == cell then
      // a larger value is replaced by the own one
      if agreed >= cell then Here(cell) else Up(agreed)
    else if level > cell && cell != INVALID then
      // storing INVALID is a reset
      Up(if agreed == INVALID then INVALID else Min(agreed, cell))
    else Broken
  }

  /** A task is sent up with the least cell it heard of, unless it asked for a reduction on its own. */
  lemma VisitMeans(level: nat, size: nat, cell: nat, collective: bool, others: nat)
    requires level < INVALID && cell <= INVALID && others <= INVALID && size >= 1
    ensures
      var v := VisitCd(level, size, cell, collective, others);
      var least := if collective && size > 1 then Min(cell, others) else cell;
      && (v.Broken? <==> level < cell)
      && (v.Here? <==> level == cell == least)
      && (v.Here? ==> v.cell == level)
      && (v.Up? ==> v.cell == (if collective && size == 1 then INVALID else least) && least < level)
  {
  }

  // ---- the walk of one task ----

  datatype Cd = Cd(size: nat, covers: bv64, begun: bool, entries: seq<nat>)

  function Cleared(c: Cd): Cd
  {
    c.(begun := false, entries := [])
  }

  function Last<T>(s: seq<T>): T
    requires s != []
  {
    s[|s| - 1]
  }

  /** The CDs below `level`, deepest first, as they are when they are destroyed. */
  function Removed(path: seq<Cd>, level: nat): (r: seq<Cd>)
    requires level < |path|
    ensures |r| == |path| - level - 1
    ensures forall i :: 0 <= i < |r| ==> r[i] == Cleared(path[|path| - 1 - i])
    ensures forall i :: 0 <= i < |r| ==> !r[i].begun && r[i].entries == []
    ensures forall i :: 0 <= i < |r| ==>
              r[i].size == path[|path| - 1 - i].size && r[i].covers == path[|path| - 1 - i].covers
  {
    if |path| == level + 1 then [] else [Cleared(Last(path))] + Removed(path[..|path| - 1], level)
  }

  /** Whether the task takes part in a reduction at level `j`. */
  predicate Reduces(path: seq<Cd>, collective: bool, j: nat)
    requires j < |path|
  {
    path[j].size > 1 && if j == |path| - 1 then collective else path[j].size > path[j + 1].size
  }

  /** `level` is the least of the task's own cell and of what the reductions on the way brought in. */
  ghost predicate Agreed(path: seq<Cd>, collective: bool, others: seq<nat>, cell: nat, level: nat)
    requires |path| <= |others|
  {
    && level <= cell
    && (forall j :: level <= j < |path| && Reduces(path, collective, j) ==> level <= others[j])
    && (level == cell || exists j :: level <= j < |path| && Reduces(path, collective, j) && others[j] == level)
  }

  lemma {:induction false} AgreedAbove(path: seq<Cd>, collective: bool, others: seq<nat>, cell: nat, level: nat)
    requires |path| >= 2 && |path| <= |others| && level < |path| - 1
    requires
      var k := |path| - 1;
      Agreed(path[..k], path[k - 1].size > path[k].size,
             others, if Reduces(path, collective, k) then Min(cell, others[k]) else cell, level)
    ensures Agreed(path, collective, others, cell, level)
  {
    var k := |path| - 1;
    var up := path[k - 1].size > path[k].size;
    assert forall j: nat :: j < k ==> (Reduces(path[..k], up, j) <==> Reduces(path, collective, j));
  }

  lemma {:induction false} AgreedHere(path: seq<Cd>, collective: bool, others: seq<nat>, cell: nat)
    requires path != [] && |path| <= |others| && cell == |path| - 1
    requires Reduces(path, collective, cell) ==> cell <= others[cell]
    ensures Agreed(path, collective, others, cell, cell)
  {
  }

  lemma {:induction false} RemovedAbove(path: seq<Cd>, level: nat, before: seq<Cd>)
    requires level < |path| - 1
    ensures
      var rest := path[..|path| - 1];
      && before + Removed(path, level) == before + [Cleared(Last(path))] + Removed(rest, level)
      && rest[..level] == path[..level] && rest[level] == path[level]
  {
  }

  lemma LastReduces(path: seq<Cd>, collective: bool)
    requires path != []
    ensures Reduces(path, collective, |path| - 1) <==> Last(path).size > 1 && collective
  {
  }

  lemma RemovedNone(path: seq<Cd>, before: seq<Cd>)
    requires path != []
    ensures before + Removed(path, |path| - 1) == before
  {
  }

  /** From one path, cell and list of destroyed CDs to another: the CDs below the new cell are gone. */
  ghost predicate Walked(path: seq<Cd>, cell: nat, gone: seq<Cd>, collective: bool, others: seq<nat>,
                         path': seq<Cd>, cell': nat, gone': seq<Cd>)
    requires |path| <= |others|
  {
    && cell' < |path|
    && path' == path[..cell'] + [path[cell'].(begun := false)]
    && gone' == gone + Removed(path, cell')
    && Agreed(path, collective, others, cell, cell')
  }

  lemma {:induction false} WalkedHere(path: seq<Cd>, cell: nat, gone: seq<Cd>, collective: bool, others: seq<nat>)
    requires path != [] && |path| <= |others| && cell == |path| - 1
    requires collective && Last(path).size > 1 ==> cell <= others[cell]
    ensures Walked(path, cell, gone, collective, others, path[cell := path[cell].(begun := false)], cell, gone)
  {
    LastReduces(path, collective);
    AgreedHere(path, collective, others, cell);
    RemovedNone(path, gone);
  }

  lemma {:induction false} WalkedUp(path: seq<Cd>, cell: nat, gone: seq<Cd>, collective: bool, others: seq<nat>,
                                    path': seq<Cd>, cell': nat, gone': seq<Cd>)
    requires |path| >= 2 && |path| <= |others|
    requires
      var k := |path| - 1;
      Walked(path[..k], if collective && path[k].size > 1 then Min(cell, others[k]) else cell,
             gone + [Cleared(path[k])], path[k - 1].size > path[k].size, others, path', cell', gone')
    ensures Walked(path, cell, gone, collective, others, path', cell', gone')
  {
    hide Agreed, Removed, Reduces;
    LastReduces(path, collective);
    RemovedAbove(path, cell', gone);
    AgreedAbove(path, collective, others, cell, cell');
  }

  /** The same in plain terms: what is gone and how, what is left, and that the level is the least that was heard of. */
  lemma {:induction false} WalkedMeans(path: seq<Cd>, cell: nat, gone: seq<Cd>, collective: bool, others: seq<nat>,
                                       path': seq<Cd>, cell': nat, gone': seq<Cd>)
    requires |path| <= |others| && Walked(path, cell, gone, collective, others, path', cell', gone')
    ensures cell' < |path| && path' == path[..cell'] + [path[cell'].(begun := false)]
    ensures gone <= gone' && |gone'| == |gone| + |path| - 1 - cell'
    ensures
      forall i :: |gone| <= i < |gone'| ==>
        var c := path[|path| - 1 - (i - |gone|)];
        && !gone'[i].begun && gone'[i].entries == [] && gone'[i].size == c.size && gone'[i].covers == c.covers
    ensures cell' <= cell && (cell' == cell || cell' in others)
    ensures collective && path[|path| - 1].size > 1 ==> cell' <= others[|path| - 1]
    ensures
      forall j :: cell' <= j < |path| - 1 && path[j].size > 1 && path[j].size > path[j + 1].size ==> cell' <= others[j]
    ensures (forall j :: 0 <= j < |path| ==> cell <= others[j]) ==> cell' == cell
  {
    forall j | cell' <= j < |path| - 1 && path[j].size > 1 && path[j].size > path[j + 1].size
      ensures cell' <= others[j]
    {
      assert Reduces(path, collective, j);
    }
    assert Reduces(path, collective, |path| - 1) <==> path[|path| - 1].size > 1 && collective;
  }

  /** One step of the walk over the logs. */
  lemma {:induction false} WalkedLogs(logs: seq<CdLogs.Cd>, level: nat, allocs: seq<CdLogs.Alloc>)
    requires level < |logs| == |allocs|
    ensures
      var n := |logs| - 1;
      var next := LogRollback.CompleteLogs(logs, allocs[n]);
      && |next| == |logs|
      && (level == n ==> LogRollback.Walk(logs, level, allocs) == next)
      && (level < n ==> LogRollback.Walk(logs, level, allocs) == LogRollback.Walk(next[..n], level, allocs[..n]))
  {
    if |logs| >= 2 {
      LogRollback.CompletedBelow(logs, allocs[|logs| - 1]);
    }
  }

  datatype Completion = Completed | Reexecute(level: nat)

  /** A reduction in Complete stands for the first one of the walk. */
  lemma {:induction false} AgreedBefore(path: seq<Cd>, collective: bool, others: seq<nat>, cell: nat, level: nat)
    requires path != [] && |path| <= |others| && level < |path|
    requires
      var heard := if Reduces(path, collective, |path| - 1) then Min(cell, others[|path| - 1]) else cell;
      Agreed(path, false, others, heard, level)
    ensures Agreed(path, collective, others, cell, level)
  {
    assert forall j: nat :: j < |path| - 1 ==> (Reduces(path, false, j) <==> Reduces(path, collective, j));
  }

  lemma {:induction false} WalkedBefore(path: seq<Cd>, cell: nat, gone: seq<Cd>, collective: bool, others: seq<nat>,
                                        path': seq<Cd>, cell': nat, gone': seq<Cd>)
    requires path != [] && |path| <= |others|
    requires
      var heard := if Reduces(path, collective, |path| - 1) then Min(cell, others[|path| - 1]) else cell;
      Walked(path, heard, gone, false, others, path', cell', gone')
    ensures Walked(path, cell, gone, collective, others, path', cell', gone')
  {
    hide Agreed, Removed, Reduces;
    AgreedBefore(path, collective, others, cell, cell');
  }

  const ALL: bv64 := 0xFFFF_FFFF_FFFF_FFFF

  /** CHECK_SYS_ERR_VEC */
  predicate Contains(vector: bv64, error: bv64)
  {
    error & vector == error
  }

  predicate Covers(c: Cd, error: bv64)
  {
    Contains(c.covers, error)
  }

  predicate Deepest(path: seq<Cd>, error: bv64, level: nat)
  {
    level < |path| && Covers(path[level], error) && forall i :: level < i < |path| ==> !Covers(path[i], error)
  }

  lemma Within(e: bv64, c: bv64)
    requires e & c == e
    ensures e & !c == 0
  {
  }

  lemma Inside(e: bv64, c: bv64)
    requires e & !c == 0
    ensures e & c == e
  {
  }

  /** None of the error's bits is missing in the vector. */
  lemma Subset(e: bv64, v: bv64)
    ensures Contains(v, e) <==> e & !v == 0
  {
    if e & v == e {
      Within(e, v);
    } else if e & !v == 0 {
      Inside(e, v);
    }
  }

  /** A CD covers an error if none of the error's bits is missing in its vector. */
  lemma {:induction false} CoversMeans(c: Cd, error: bv64)
    ensures Covers(c, error) <==> error & !c.covers == 0
  {
    hide Contains;
    Subset(error, c.covers);
  }

  predicate Lacks(vector: bv64, error: bv64)
  {
    error & !vector != 0
  }

  lemma {:induction false} LacksIt(c: Cd, error: bv64)
    ensures Covers(c, error) <==> !Lacks(c.covers, error)
  {
    hide Lacks, Contains;
    LacksSome(c.covers, error);
  }

  lemma LacksSome(vector: bv64, error: bv64)
    ensures Contains(vector, error) <==> !Lacks(vector, error)
  {
    hide Contains;
    Subset(error, vector);
  }

  lemma {:induction false} CoversAll(path: seq<Cd>, error: bv64)
    ensures forall i :: 0 <= i < |path| ==> (Covers(path[i], error) <==> !Lacks(path[i].covers, error))
  {
    hide Covers, Lacks;
    forall i | 0 <= i < |path|
      ensures Covers(path[i], error) <==> !Lacks(path[i].covers, error)
    {
      LacksIt(path[i], error);
    }
  }

  lemma {:induction false} DeepestMeans(path: seq<Cd>, error: bv64, level: nat)
    ensures
      Deepest(path, error, level) <==>
        && level < |path| && error & !path[level].covers == 0
        && forall i :: level < i < |path| ==> error & !path[i].covers != 0
  {
    hide Covers;
    CoversAll(path, error);
  }

  lemma Spread(e: bv64, f: bv64, c: bv64)
    ensures (e | f) & !c == (e & !c) | (f & !c)
  {
  }

  lemma OrIsZero(e: bv64, f: bv64)
    ensures e | f == 0 <==> e == 0 && f == 0
  {
  }

  lemma BothCovered(e: bv64, f: bv64, c: bv64)
    ensures (e | f) & !c == 0 <==> e & !c == 0 && f & !c == 0
  {
    Spread(e, f, c);
    OrIsZero(e & !c, f & !c);
  }

  lemma {:induction false} BothContained(c: bv64, e: bv64, f: bv64)
    ensures Contains(c, e | f) <==> Contains(c, e) && Contains(c, f)
  {
    Subset(e, c);
    Subset(f, c);
    Subset(e | f, c);
    BothCovered(e, f, c);
    hide Contains;
  }

  /** Two errors at once are covered exactly where both are, so they re-execute no deeper than either alone. */
  lemma {:induction false} TwoErrors(path: seq<Cd>, e: bv64, f: bv64, level: nat, one: nat)
    requires level < |path|
    ensures Covers(path[level], e | f) <==> Covers(path[level], e) && Covers(path[level], f)
    ensures Deepest(path, e | f, level) && Deepest(path, e, one) ==> level <= one
  {
    hide Contains;
    BothContained(path[level].covers, e, f);
  }

  /** The least of the levels found for the errors that are none of zero. */
  ghost predicate IsLeast(m: nat, path: seq<Cd>, errors: seq<bv64>)
  {
    && (exists i :: 0 <= i < |errors| && errors[i] != 0 && Deepest(path, errors[i], m))
    && (forall i, l :: 0 <= i < |errors| && errors[i] != 0 && Deepest(path, errors[i], l) ==> m <= l)
  }

  /** Told by the CDs that cover: some error has its deepest there, and every error has a covering CD there or below. */
  lemma {:induction false} LeastMeans(m: nat, path: seq<Cd>, errors: seq<bv64>)
    requires path != [] && path[0].covers == ALL
    ensures
      IsLeast(m, path, errors) <==>
        && m < |path|
        && (exists i :: 0 <= i < |errors| && errors[i] != 0 && Covers(path[m], errors[i])
                        && forall l :: m < l < |path| ==> !Covers(path[l], errors[i]))
        && (forall i :: 0 <= i < |errors| && errors[i] != 0 ==>
              exists l :: m <= l < |path| && Covers(path[l], errors[i]))
  {
    hide Covers;
    forall i | 0 <= i < |errors|
      ensures exists l :: Deepest(path, errors[i], l)
    {
      RootCovers(path, errors[i]);
      SomeDeepest(path, errors[i], |path|);
    }
    if IsLeast(m, path, errors) {
      forall i | 0 <= i < |errors| && errors[i] != 0
        ensures exists l :: m <= l < |path| && Covers(path[l], errors[i])
      {
        var l :| Deepest(path, errors[i], l);
        assert m <= l;
      }
    }
  }

  lemma {:induction false} SomeDeepest(path: seq<Cd>, error: bv64, n: nat)
    requires 0 < n <= |path| && Covers(path[0], error)
    requires forall i :: n <= i < |path| ==> !Covers(path[i], error)
    ensures exists l :: Deepest(path, error, l)
    decreases n
  {
    hide Covers;
    if Covers(path[n - 1], error) {
      assert Deepest(path, error, n - 1);
    } else {
      SomeDeepest(path, error, n - 1);
    }
  }

  ghost predicate LeastSoFar(m: nat, path: seq<Cd>, errors: seq<bv64>, n: nat)
    requires n <= |errors|
  {
    if forall i :: 0 <= i < n ==> errors[i] == 0 then m == INVALID else IsLeast(m, path, errors[..n])
  }

  lemma {:induction false} RootCovers(path: seq<Cd>, error: bv64)
    requires path != [] && path[0].covers == ALL
    ensures Covers(path[0], error)
  {
  }

  lemma {:induction false} LeastStep(path: seq<Cd>, errors: seq<bv64>, n: nat, before: nat, after: nat)
    requires n < |errors| && |path| < INVALID && LeastSoFar(before, path, errors, n)
    requires errors[n] == 0 ==> after == before
    requires errors[n] != 0 ==> exists l :: Deepest(path, errors[n], l) && after == Min(l, before)
    ensures LeastSoFar(after, path, errors, n + 1)
  {
    var es, fs := errors[..n], errors[..n + 1];
    assert forall i :: 0 <= i < n ==> es[i] == fs[i] == errors[i];
    if errors[n] != 0 {
      var l :| Deepest(path, errors[n], l) && after == Min(l, before);
      assert fs[n] == errors[n];
      assert forall k :: Deepest(path, errors[n], k) ==> k == l;
    }
  }

  lemma {:induction false} LeastInPath(m: nat, path: seq<Cd>, errors: seq<bv64>)
    requires IsLeast(m, path, errors)
    ensures m < |path|
  {
  }

  lemma {:induction false} AloneAgreed(path: seq<Cd>, others: seq<nat>, cell: nat, level: nat)
    requires |path| <= |others| && (forall i :: 0 <= i < |path| ==> path[i].size == 1)
    requires Agreed(path, false, others, cell, level)
    ensures level == cell
  {
  }

  class Task {
    var path: seq<Cd>
    var cell: nat
    var logs: seq<CdLogs.Cd>
    ghost var gone: seq<Cd>

    ghost predicate Valid()
      reads this
    {
      && path != [] && |path| < INVALID && cell <= INVALID && |logs| == |path|
      && forall i :: 0 <= i < |path| ==> path[i].size >= 1
    }

    /**
      CD::GetCDToRecover on the path's last CD. It succeeds exactly if the cell is a level of the path and
      the caller does not ask for a reduction in a CD of its own that it has to leave; then it returns the
      agreed level, and has destroyed the CDs below, each once and cleared, and no other.
     */
    method GetCDToRecover(collective: bool, others: seq<nat>, allocs: seq<CdLogs.Alloc>) returns (r: Option<nat>)
      requires Valid() && |path| <= |others| && |allocs| == |path|
      requires forall i :: 0 <= i < |others| ==> others[i] <= INVALID
      modifies this
      ensures r.Some? <==> old(cell) < |old(path)|
                           && !(collective && Last(old(path)).size == 1 && old(cell) < |old(path)| - 1)
      ensures r.Some? ==> r.value == cell
      ensures r.Some? ==> Walked(old(path), old(cell), old(gone), collective, others, path, cell, gone)
      ensures r.Some? ==> cell < |old(path)| && logs == LogRollback.Walk(old(logs), cell, allocs)
      ensures r.Some? ==> old(gone) <= gone && |gone| == |old(gone)| + |old(path)| - 1 - cell
      ensures r.Some? ==>
                forall i :: |old(gone)| <= i < |gone| ==>
                  var c := old(path)[|old(path)| - 1 - (i - |old(gone)|)];
                  && !gone[i].begun && gone[i].entries == [] && gone[i].size == c.size && gone[i].covers == c.covers
      ensures r.Some? ==> path == old(path)[..cell] + [old(path)[cell].(begun := false)]
      // the level agreed on is the least of the own cell and of what came in with the reductions up to it
      ensures r.Some? ==> cell <= old(cell) && (cell == old(cell) || cell in others)
      ensures r.Some? && collective && old(path)[|old(path)| - 1].size > 1 ==> cell <= others[|old(path)| - 1]
      ensures
        var p := old(path);
        r.Some? ==> forall j :: cell <= j < |p| - 1 && p[j].size > 1 && p[j].size > p[j + 1].size ==> cell <= others[j]
      ensures r.Some? && (forall j :: 0 <= j < |old(path)| ==> old(cell) <= others[j]) ==> cell == old(cell)
    {
      hide *;
      r := VisitAndLeave(collective, others, allocs);
      if r.Some? {
        WalkedMeans(old(path), old(cell), old(gone), collective, others, path, cell, gone);
      }
    }

    /** The walk itself: one CD is visited, and if it has to be left, destroyed. */
    method VisitAndLeave(collective: bool, others: seq<nat>, allocs: seq<CdLogs.Alloc>) returns (r: Option<nat>)
      requires Valid() && |path| <= |others| && |allocs| == |path|
      requires forall i :: 0 <= i < |others| ==> others[i] <= INVALID
      modifies this
      ensures r.Some? <==> old(cell) < |old(path)|
                           && !(collective && Last(old(path)).size == 1 && old(cell) < |old(path)| - 1)
      ensures r.Some? ==> r.value == cell
      ensures r.Some? ==> Walked(old(path), old(cell), old(gone), collective, others, path, cell, gone)
      ensures r.Some? ==> cell < |old(path)| && logs == LogRollback.Walk(old(logs), cell, allocs)
      decreases |path|
    {
      hide Walked, VisitCd, LogRollback.CompleteLogs, LogRollback.Escalate;
      var level := |path| - 1;
      var target := Last(path);
      VisitMeans(level, target.size, cell, collective, others[level]);
      var v := VisitCd(level, target.size, cell, collective, others[level]);
      if v.Broken? {
        return None;
      }
      cell := v.cell;
      logs := LogRollback.CompleteLogs(logs, allocs[level]);
      WalkedLogs(old(logs), level, allocs);
      if v.Here? {
        WalkedHere(path, cell, gone, collective, others);
        path := path[level := target.(begun := false)];
        return Some(level);
      }
      gone := gone + [Cleared(target)];
      path, logs := path[..level], logs[..level];
      r := VisitAndLeave(Last(path).size > target.size, others, allocs[..level]);
      if r.Some? {
        WalkedUp(old(path), old(cell), old(gone), collective, others, path, cell, gone);
        WalkedLogs(old(logs), cell, allocs);
      }
    }

    /** CD::Complete at the end of the path's last CD; `others` as in the walk. */
    method Complete(collective: bool, others: seq<nat>, allocs: seq<CdLogs.Alloc>) returns (r: Completion)
      requires Valid() && |path| <= |others| && |allocs| == |path|
      requires forall i :: 0 <= i < |others| ==> others[i] <= INVALID
      modifies this
      ensures
        var n := |old(path)|;
        r.Completed? <==> old(cell) >= n && (Reduces(old(path), collective, n - 1) ==> others[n - 1] >= n)
      ensures r.Completed? ==> path == old(path) && gone == old(gone)
      ensures r.Completed? ==>
                cell == if Reduces(path, collective, |path| - 1) then Min(old(cell), others[|path| - 1]) else old(cell)
      ensures r.Reexecute? ==> r.level == cell
      ensures r.Reexecute? ==> Walked(old(path), old(cell), old(gone), collective, others, path, cell, gone)
      ensures r.Reexecute? ==> cell < |old(path)| && logs == LogRollback.Walk(old(logs), cell, allocs)
      ensures r.Reexecute? ==> old(gone) <= gone && |gone| == |old(gone)| + |old(path)| - 1 - cell
      ensures r.Reexecute? ==>
                forall i :: |old(gone)| <= i < |gone| ==>
                  var c := old(path)[|old(path)| - 1 - (i - |old(gone)|)];
                  && !gone[i].begun && gone[i].entries == [] && gone[i].size == c.size && gone[i].covers == c.covers
    {
      hide Walked, LogRollback.Walk;
      var level := |path| - 1;
      var size := Last(path).size;
      var agreed := if collective && size > 1 then Synced(size, cell, true, others[level]) else cell;
      cell := if agreed == INVALID then INVALID else Min(agreed, cell);
      if agreed > level {
        return Completed;
      }
      var at := GetCDToRecover(false, others, allocs);
      WalkedBefore(old(path), old(cell), old(gone), collective, others, path, cell, gone);
      r := Reexecute(at.value);
    }

    // ---- detection ----

    /** Finds the deepest CD that covers the error; not found: an assertion ends the run. */
    method CheckErrorOccurred(error: bv64) returns (found: bool, level: nat)
      requires Valid()
      ensures found <==> exists i :: 0 <= i < |path| && Covers(path[i], error)
      ensures found ==> Deepest(path, error, level)
      ensures found ==> level < |path| && error & !path[level].covers == 0
      ensures forall i :: (if found then level < i else 0 <= i) && i < |path| ==> error & !path[i].covers != 0
    {
      hide Covers;
      CoversAll(path, error);
      level := |path|;
      while level > 0
        invariant level <= |path|
        invariant forall i :: level <= i < |path| ==> !Covers(path[i], error)
      {
        level := level - 1;
        if Covers(path[level], error) {
          return true, level;
        }
      }
      found := false;
    }

    /** CDHandle::Detect where every CD has one task: the level found goes into the cell. */
    method Detect(error: bv64) returns (ok: bool)
      requires Valid()
      modifies this`cell
      ensures Valid()
      ensures ok <==> error == 0 || exists i :: 0 <= i < |path| && Covers(path[i], error)
      ensures error == 0 ==> cell == old(cell)
      ensures ok && error != 0 ==> exists l :: Deepest(path, error, l) && cell == Min(l, old(cell))
    {
      ok := true;
      if error != 0 {
        var level;
        ok, level := CheckErrorOccurred(error);
        if ok {
          cell := Min(level, cell);
        }
      }
    }

    /**
      A single-task run reports some errors in its current CD and completes it: it re-executes at the least
      of the levels found, each the deepest that covers its error, or goes on if there was no error.
     */
    method DetectThenComplete(errors: seq<bv64>, allocs: seq<CdLogs.Alloc>) returns (r: Completion)
      requires Valid() && |allocs| == |path| && cell == INVALID && path[0].covers == ALL
      requires forall i :: 0 <= i < |path| ==> path[i].size == 1
      modifies this
      ensures r.Completed? <==> forall i :: 0 <= i < |errors| ==> errors[i] == 0
      ensures r.Reexecute? ==> IsLeast(r.level, old(path), errors)
      ensures r.Reexecute? ==> path == old(path)[..r.level] + [old(path)[r.level].(begun := false)]
                               && gone == old(gone) + Removed(old(path), r.level)
    {
      hide Agreed, Removed, Deepest, IsLeast;
      var n := 0;
      while n < |errors|
        invariant n <= |errors| && Valid() && path == old(path) && gone == old(gone) && logs == old(logs)
        invariant LeastSoFar(cell, path, errors, n)
      {
        RootCovers(path, errors[n]);
        var before := cell;
        var ok := Detect(errors[n]);
        LeastStep(path, errors, n, before, cell);
        n := n + 1;
      }
      assert errors[..n] == errors;
      if exists i :: 0 <= i < n && errors[i] != 0 {
        LeastInPath(cell, path, errors);
      }
      ghost var least := cell;
      var others: seq<nat> := seq(|path|, _ => INVALID);
      r := Complete(false, others, allocs);
      if r.Reexecute? {
        AloneAgreed(old(path), others, least, cell);
      }
    }
  }
}
