/**
  The rollback points: one cell per task in a shared window, lowered by MIN under a lock, by the task itself
  or, through the head of a CD, by others.
 */
module RollbackCells {
  const INVALID: nat := 0xFFFF_FFFF

  function Min(a: nat, b: nat): nat
  {
    if a < b then a else b
  }

  /** A CD of the caller's path: how many tasks it has, and its head's rank in the root. */
  datatype Place = Place(size: nat, head: nat)

  ghost predicate Placed(path: seq<Place>, total: nat)
  {
    && path != [] && path[0].size == total
    && forall i :: 0 <= i < |path| ==> 1 <= path[i].size <= total && path[i].head < total
  }

  // ---- GetCoarseCD ----

  /** The nearest CD at or above `k` with more than one task, else the root. */
  function Coarse(path: seq<Place>, k: nat): (c: nat)
    requires k < |path|
    ensures c <= k
    ensures forall i :: c < i <= k ==> path[i].size == 1
    ensures path[c].size != 1 || c == 0
  {
    if path[k].size == 1 && k > 0 then Coarse(path, k - 1) else k
  }

  method GetCoarseCD(path: seq<Place>, k: nat) returns (c: nat)
    requires k < |path|
    ensures c == Coarse(path, k)
  {
    c := k;
    while path[c].size == 1
      invariant c <= k && Coarse(path, k) == Coarse(path, c)
      decreases c
    {
      if c == 0 {
        return;
      }
      c := c - 1;
    }
  }

  /** In a run with several tasks the search ends in a CD that several tasks share. */
  lemma {:induction false} CoarseIsShared(path: seq<Place>, k: nat, total: nat)
    requires Placed(path, total) && total > 1 && k < |path|
    ensures path[Coarse(path, k)].size > 1
  {
    assert path[0].size > 1;
  }

  // ---- SetRollbackPoint ----

  /** One call: by task `me`, on the CD at level `k` of its path. */
  datatype Call = Call(me: nat, path: seq<Place>, k: nat, value: nat, remote: bool)

  ghost predicate Legal(c: Call, total: nat)
  {
    Placed(c.path, total) && c.me < total && c.k < |c.path| && c.value <= INVALID
  }

  /** The cell a call reaches; a reset never leaves the task. */
  function Target(c: Call, total: nat): (i: nat)
    requires c.k < |c.path|
  {
    if c.remote && c.value != INVALID && total > 1 then c.path[Coarse(c.path, c.k)].head else c.me
  }

  function Write(cells: seq<nat>, i: nat, value: nat): seq<nat>
    requires i < |cells|
  {
    cells[i := if value == INVALID then INVALID else Min(value, cells[i])]
  }

  class Window {
    const cells: array<nat>

    constructor (total: nat)
      ensures fresh(cells) && cells.Length == total
      ensures forall i :: 0 <= i < total ==> cells[i] == INVALID
    {
      cells := new nat[total](_ => INVALID);
    }

    method SetRollbackPoint(c: Call) returns (r: nat)
      requires Legal(c, cells.Length)
      modifies cells
      ensures Target(c, cells.Length) < cells.Length
      ensures cells[..] == Write(old(cells[..]), Target(c, cells.Length), c.value)
      // a reset and a local call stay in the task; a remote one reaches the head of the nearest shared CD
      ensures c.value == INVALID ==> cells[..] == old(cells[..])[c.me := INVALID]
      ensures
        !c.remote && c.value != INVALID ==>
          cells[..] == old(cells[..])[c.me := if c.value < old(cells[c.me]) then c.value else old(cells[c.me])]
      ensures
        forall j :: 0 <= j <= c.k && c.path[j].size > 1 && (forall i :: j < i <= c.k ==> c.path[i].size == 1) ==>
          var h := c.path[j].head;
          c.remote && c.value != INVALID ==>
            cells[..] == old(cells[..])[h := if c.value < old(cells[..])[h] then c.value else old(cells[..])[h]]
      ensures r == if c.value == INVALID || cells.Length == 1 || Target(c, cells.Length) != c.me
                   then c.value else cells[c.me]
      decreases c.path[c.k].size == 1
    {
      r := c.value;
      if c.value == INVALID {
        cells[c.me] := INVALID;
      } else if c.path[c.k].size > 1 {
        if c.remote && c.path[c.k].head != c.me {
          cells[c.path[c.k].head] := Min(c.value, cells[c.path[c.k].head]);
        } else {
          cells[c.me] := Min(c.value, cells[c.me]);
          r := cells[c.me];
        }
      } else if cells.Length == 1 {
        cells[c.me] := Min(c.value, cells[c.me]);
      } else {
        var k := GetCoarseCD(c.path, c.k);
        CoarseIsShared(c.path, c.k, cells.Length);
        assert Coarse(c.path, k) == k;
        r := SetRollbackPoint(c.(k := k));
      }
    }

    /**
      CDHandle::Detect in the CD at level `k`, for an error that the CD at level `found` covers. Afterwards
      the task's own cell is at most `k`, so its next Complete recovers; and in a shared CD the head knows.
     */
    method Report(me: nat, path: seq<Place>, k: nat, found: nat)
      requires Placed(path, cells.Length) && me < cells.Length && found <= k < |path| <= INVALID
      modifies cells
      ensures cells[me] <= k
      ensures
        var alone := path[k].size == 1 && path[found].size > 1 && path[found].head != me;
        && (cells[me] == if alone then Min(k, old(cells[me])) else Min(found, old(cells[me])))
        && (path[k].size > 1 ==> cells[path[k].head] <= found)
        && (forall i :: 0 <= i < cells.Length && i != me && (i != path[k].head || path[k].size == 1)
              ==> cells[i] == old(cells[i]))
    {
      var r;
      if path[k].size > 1 {
        if path[k].head != me {
          r := SetRollbackPoint(Call(me, path, k, found, true));
        }
        r := SetRollbackPoint(Call(me, path, k, found, false));
      } else if path[found].size > 1 && path[found].head != me {
        // the head will tell
        r := SetRollbackPoint(Call(me, path, k, k, false));
      } else {
        r := SetRollbackPoint(Call(me, path, k, found, false));
      }
    }

    /** CD::Begin of a CD that re-executes: the task's own cell is cleared, and no other. */
    method Clear(me: nat, path: seq<Place>, k: nat)
      requires Placed(path, cells.Length) && me < cells.Length && k < |path|
      modifies cells
      ensures cells[..] == old(cells[..])[me := 0xFFFF_FFFF]
    {
      var r := SetRollbackPoint(Call(me, path, k, INVALID, false));
    }

    /** Reading one's own cell; `k` is a level of the path. */
    method CheckRollbackPoint(me: nat, path: seq<Place>, k: nat) returns (r: nat)
      requires Placed(path, cells.Length) && me < cells.Length && k < |path|
      ensures r == cells[me]
      decreases path[k].size == 1
    {
      if path[k].size > 1 || cells.Length == 1 {
        return cells[me];
      }
      var c := GetCoarseCD(path, k);
      CoarseIsShared(path, k, cells.Length);
      r := CheckRollbackPoint(me, path, c);
    }
  }

  // ---- any interleaving of calls ----

  ghost predicate LegalRun(cs: seq<Call>, total: nat)
  {
    forall i :: 0 <= i < |cs| ==> Legal(cs[i], total)
  }

  lemma {:induction false} TargetInRange(c: Call, total: nat)
    requires Legal(c, total)
    ensures Target(c, total) < total
  {
  }

  /** The calls take effect one after the other: each holds the window's lock. */
  ghost function Run(cells: seq<nat>, cs: seq<Call>): (r: seq<nat>)
    requires LegalRun(cs, |cells|)
    ensures |r| == |cells|
  {
    if cs == [] then cells
    else
      var n := |cs| - 1;
      var before := Run(cells, cs[..n]);
      TargetInRange(cs[n], |cells|);
      Write(before, Target(cs[n], |cells|), cs[n].value)
  }

  /** What cell `i` has been sent since it was last reset, and what it held then. */
  ghost function Heard(cells: seq<nat>, cs: seq<Call>, i: nat): (s: seq<nat>)
    requires LegalRun(cs, |cells|) && i < |cells|
  {
    if cs == [] then [cells[i]]
    else
      var n := |cs| - 1;
      var before := Heard(cells, cs[..n], i);
      if Target(cs[n], |cells|) != i then before
      else if cs[n].value == INVALID then [INVALID]
      else before + [cs[n].value]
  }

  ghost predicate IsMinimum(m: nat, s: seq<nat>)
  {
    m in s && forall x :: x in s ==> m <= x
  }

  /** Each cell is a min-register. */
  lemma {:induction false} CellIsMinimum(cells: seq<nat>, cs: seq<Call>, i: nat)
    requires LegalRun(cs, |cells|) && i < |cells|
    ensures IsMinimum(Run(cells, cs)[i], Heard(cells, cs, i))
    decreases |cs|
  {
    hide Target;
    if cs != [] {
      var n := |cs| - 1;
      CellIsMinimum(cells, cs[..n], i);
      TargetInRange(cs[n], |cells|);
    }
  }

  /** Where the calls of a run write, and what. */
  ghost function Writes(cs: seq<Call>, total: nat): (ws: seq<(nat, nat)>)
    requires LegalRun(cs, total)
    ensures |ws| == |cs|
  {
    seq(|cs|, j requires 0 <= j < |cs| => (Target(cs[j], total), cs[j].value))
  }

  lemma {:induction false} HeardIsSent(cells: seq<nat>, cs: seq<Call>, i: nat, x: nat)
    requires LegalRun(cs, |cells|) && i < |cells|
    requires forall j :: 0 <= j < |cs| ==> cs[j].value != INVALID
    ensures x in Heard(cells, cs, i) <==> x == cells[i] || (i, x) in Writes(cs, |cells|)
    decreases |cs|
  {
    hide Target;
    if cs != [] {
      var n := |cs| - 1;
      HeardIsSent(cells, cs[..n], i, x);
      assert Writes(cs, |cells|) == Writes(cs[..n], |cells|) + [(Target(cs[n], |cells|), cs[n].value)];
    }
  }

  /** Without resets only what was sent where matters: not the order, nor the CD level it came through. */
  lemma {:induction false} OrderIrrelevant(cells: seq<nat>, cs: seq<Call>, ds: seq<Call>)
    requires LegalRun(cs, |cells|) && LegalRun(ds, |cells|)
    requires forall j :: 0 <= j < |cs| ==> cs[j].value != INVALID
    requires forall j :: 0 <= j < |ds| ==> ds[j].value != INVALID
    requires multiset(Writes(cs, |cells|)) == multiset(Writes(ds, |cells|))
    ensures Run(cells, cs) == Run(cells, ds)
  {
    hide Run, Heard, Writes;
    forall i | 0 <= i < |cells|
      ensures Run(cells, cs)[i] == Run(cells, ds)[i]
    {
      CellIsMinimum(cells, cs, i);
      CellIsMinimum(cells, ds, i);
      var m, n := Run(cells, cs)[i], Run(cells, ds)[i];
      HeardIsSent(cells, cs, i, m);
      HeardIsSent(cells, cs, i, n);
      HeardIsSent(cells, ds, i, m);
      HeardIsSent(cells, ds, i, n);
      assert forall w :: w in Writes(cs, |cells|) <==> w in multiset(Writes(ds, |cells|));
    }
  }
}
