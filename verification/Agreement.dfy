/** Several tasks in recovery: those of one CD decide alike, and so, upwards, does a whole tree of CDs. */
module Agreement {
  import opened RollbackCells
  import opened Recovery

  function MinOf(s: seq<nat>): (m: nat)
    requires s != []
    ensures IsMinimum(m, s)
  {
    assert s == [s[0]] + s[1..];
    if |s| == 1 then s[0] else Min(s[0], MinOf(s[1..]))
  }

  lemma MinUnique(m: nat, n: nat, s: seq<nat>)
    requires IsMinimum(m, s) && IsMinimum(n, s)
    ensures m == n
  {
  }

  // ---- one CD ----

  /** What task `i` does in its CD's collective visit; the reduction ranges over all its tasks. */
  function GroupVisit(level: nat, cells: seq<nat>, i: nat): Visit
    requires i < |cells|
  {
    VisitCd(level, |cells|, cells[i], true, MinOf(cells))
  }

  /**
    The tasks of a CD decide alike exactly if none of them is meant for a CD below it or for none. Then
    they all re-execute here or all leave, and every cell becomes the group's minimum.
   */
  lemma {:induction false} GroupAgreement(level: nat, cells: seq<nat>)
    requires level < INVALID && |cells| > 1 && forall i :: 0 <= i < |cells| ==> cells[i] <= INVALID
    ensures (forall i :: 0 <= i < |cells| ==> !GroupVisit(level, cells, i).Broken?)
            <==> (forall i :: 0 <= i < |cells| ==> cells[i] <= level)
    ensures (forall i :: 0 <= i < |cells| ==> cells[i] <= level) ==>
              forall i :: 0 <= i < |cells| ==>
                GroupVisit(level, cells, i) == if MinOf(cells) == level then Here(level) else Up(MinOf(cells))
  {
    hide VisitCd;
    assert MinOf(cells) in cells;
    forall i | 0 <= i < |cells|
      ensures GroupVisit(level, cells, i).Broken? <==> level < cells[i]
      ensures cells[i] <= level ==>
                GroupVisit(level, cells, i) == if MinOf(cells) == level then Here(level) else Up(MinOf(cells))
    {
      assert cells[i] in cells;
      VisitMeans(level, |cells|, cells[i], true, MinOf(cells));
    }
  }

  /** CD::Complete: the value the branch looks at, and the cell after it. */
  function CompleteCell(size: nat, cell: nat, collective: bool, others: nat): nat
  {
    var agreed := if collective && size > 1 then Synced(size, cell, true, others) else cell;
    if agreed == INVALID then INVALID else Min(agreed, cell)
  }

  /** In a collective Complete all tasks end up with the least cell, so all take the same branch. */
  lemma {:induction false} CompleteAgreement(cells: seq<nat>, i: nat)
    requires i < |cells| && forall j :: 0 <= j < |cells| ==> cells[j] <= INVALID
    ensures CompleteCell(|cells|, cells[i], true, MinOf(cells)) == MinOf(cells)
  {
    assert cells[i] in cells;
  }

  // ---- a tree of CDs ----

  /** The tasks of a leaf CD by their cells; the tasks of an inner CD are those of its children. */
  datatype Group = Leaf(cells: seq<nat>) | Inner(kids: seq<Group>)

  function CellsOf(g: Group): seq<nat>
    decreases g, 0
  {
    match g case Leaf(cells) => cells case Inner(kids) => CellsOfAll(kids)
  }

  function CellsOfAll(gs: seq<Group>): seq<nat>
    decreases gs
  {
    if gs == [] then [] else CellsOf(gs[0]) + CellsOfAll(gs[1..])
  }

  /** No CD is without tasks; every level and every cell is a proper number. */
  ghost predicate Proper(g: Group, level: nat)
    decreases g
  {
    && level < INVALID
    && match g
       case Leaf(cells) => cells != [] && forall i :: 0 <= i < |cells| ==> cells[i] <= INVALID
       case Inner(kids) => kids != [] && forall i :: 0 <= i < |kids| ==> Proper(kids[i], level + 1)
  }

  /** Where a task has got to: re-executing at a level, on its way up or back to work with a cell, or stuck. */
  datatype Status = Reexecutes(level: nat) | Leaves(cell: nat) | Works(cell: nat) | Stuck

  function StatusOf(v: Visit, level: nat): Status
  {
    match v case Here(_) => Reexecutes(level) case Up(c) => Leaves(c) case Broken => Stuck
  }

  predicate AllLeave(ss: seq<Status>)
  {
    forall i :: 0 <= i < |ss| ==> ss[i].Leaves?
  }

  function CellsLeaving(ss: seq<Status>): (cells: seq<nat>)
    requires AllLeave(ss)
    ensures |cells| == |ss|
  {
    seq(|ss|, i requires 0 <= i < |ss| => ss[i].cell)
  }

  /** Each task's `collective` flag on entering a CD of `total` tasks: did its group grow? */
  function NeedSync(kids: seq<Group>, total: nat): (flags: seq<bool>)
    ensures |flags| == |CellsOfAll(kids)|
  {
    if kids == [] then []
    else seq(|CellsOf(kids[0])|, _ => total > |CellsOf(kids[0])|) + NeedSync(kids[1..], total)
  }

  /**
    All tasks of `g`, whose CD is at `level`, after the visits in and below that CD. A leaf CD's tasks come
    from its Complete. The tasks of an inner CD meet there once all of them have left the CDs below.
   */
  function Climb(g: Group, level: nat): (ss: seq<Status>)
    ensures |ss| == |CellsOf(g)|
    decreases g, 1
  {
    match g
    case Leaf(cells) =>
      if cells == [] then []
      else
        seq(|cells|, i requires 0 <= i < |cells| =>
          var cell := CompleteCell(|cells|, cells[i], true, MinOf(cells));
          if cell > level then Works(cell) else StatusOf(VisitCd(level, |cells|, cell, false, INVALID), level))
    case Inner(kids) =>
      var ss := ClimbAll(kids, level + 1);
      if ss == [] || !AllLeave(ss) then ss
      else
        var cells := CellsLeaving(ss);
        var flags := NeedSync(kids, |ss|);
        seq(|ss|, i requires 0 <= i < |ss| => StatusOf(VisitCd(level, |ss|, cells[i], flags[i], MinOf(cells)), level))
  }

  function ClimbAll(gs: seq<Group>, level: nat): (ss: seq<Status>)
    ensures |ss| == |CellsOfAll(gs)|
    decreases gs
  {
    if gs == [] then [] else Climb(gs[0], level) + ClimbAll(gs[1..], level)
  }

  /** Every CD below `g` has a task that has to go further up than that CD. */
  ghost predicate Drains(g: Group, level: nat)
    decreases g
  {
    g.Inner? ==> forall i :: 0 <= i < |g.kids| ==>
                   && Drains(g.kids[i], level + 1)
                   && CellsOf(g.kids[i]) != [] && MinOf(CellsOf(g.kids[i])) <= level
  }

  lemma {:induction false} SomeTasks(g: Group, level: nat)
    requires Proper(g, level)
    ensures CellsOf(g) != []
    decreases g
  {
    if g.Inner? {
      SomeTasks(g.kids[0], level + 1);
    }
  }

  function Expected(m: nat, level: nat): Status
  {
    if m > level then Works(m) else if m == level then Reexecutes(level) else Leaves(m)
  }

  /**
    If every CD below drains, all tasks of `g` decide alike, by the least of all their cells. And the tasks
    of `g` all leave it exactly if every CD below drains and that least cell lies above.
   */
  ghost predicate Agrees(g: Group, level: nat)
  {
    && CellsOf(g) != []
    && var m := MinOf(CellsOf(g));
    && (Drains(g, level) ==> Climb(g, level) == seq(|CellsOf(g)|, _ => Expected(m, level)))
    && (AllLeave(Climb(g, level)) <==> Drains(g, level) && m < level)
  }

  /** Agreement in the tree, whatever its shape and depth. */
  lemma {:induction false} TreeAgreement(g: Group, level: nat)
    requires Proper(g, level)
    ensures Agrees(g, level)
    decreases g
  {
    hide Agrees;
    match g
    case Leaf(cells) =>
      LeafAgreement(cells, level);
    case Inner(kids) =>
      forall i | 0 <= i < |kids|
        ensures Agrees(kids[i], level + 1)
      {
        TreeAgreement(kids[i], level + 1);
      }
      SomeTasks(g, level);
      InnerAgreement(kids, level);
  }

  lemma {:induction false} LeafAgreement(cells: seq<nat>, level: nat)
    requires Proper(Leaf(cells), level)
    ensures Agrees(Leaf(cells), level)
  {
    hide VisitCd, CompleteCell;
    var m := MinOf(cells);
    var ss := Climb(Leaf(cells), level);
    forall i | 0 <= i < |cells|
      ensures ss[i] == Expected(m, level)
    {
      CompleteAgreement(cells, i);
      VisitMeans(level, |cells|, m, false, INVALID);
    }
    assert AllLeave(ss) ==> ss[0].Leaves?;
  }

  lemma {:induction false} AllLeaveKids(kids: seq<Group>, level: nat)
    ensures AllLeave(ClimbAll(kids, level)) <==> forall i :: 0 <= i < |kids| ==> AllLeave(Climb(kids[i], level))
    decreases |kids|
  {
    hide Climb;
    if kids != [] {
      var a, b := Climb(kids[0], level), ClimbAll(kids[1..], level);
      AllLeaveKids(kids[1..], level);
      assert forall i :: 0 <= i < |kids[1..]| ==> kids[1..][i] == kids[i + 1];
      assert AllLeave(a + b) <==> AllLeave(a) && AllLeave(b) by {
        assert (a + b)[..|a|] == a && (a + b)[|a|..] == b;
        assert forall i :: 0 <= i < |a| ==> (a + b)[i] == a[i];
        assert forall i :: 0 <= i < |b| ==> (a + b)[|a| + i] == b[i];
      }
      if forall i :: 0 <= i < |kids| ==> AllLeave(Climb(kids[i], level)) {
        assert forall i :: 0 <= i < |kids[1..]| ==> AllLeave(Climb(kids[1..][i], level));
      }
    }
  }

  lemma {:induction false} MinOfSum(a: seq<nat>, b: seq<nat>, m: nat, n: nat)
    requires IsMinimum(m, a) && IsMinimum(n, b)
    ensures IsMinimum(Min(m, n), a + b)
  {
  }

  ghost predicate GoesUp(g: Group, level: nat)
  {
    Agrees(g, level) && Drains(g, level) && MinOf(CellsOf(g)) < level
  }

  lemma {:induction false} KidArrives(g: Group, level: nat)
    requires GoesUp(g, level)
    ensures AllLeave(Climb(g, level)) && CellsOf(g) != []
    ensures IsMinimum(MinOf(CellsOf(g)), CellsLeaving(Climb(g, level)))
    ensures forall i :: 0 <= i < |CellsOf(g)| ==> CellsLeaving(Climb(g, level))[i] == MinOf(CellsOf(g)) < level
  {
    hide Climb, Drains, CellsOf, MinOf;
    var a, m := Climb(g, level), MinOf(CellsOf(g));
    assert CellsLeaving(a) == seq(|a|, _ => m);
    assert CellsLeaving(a)[0] == m;
  }

  lemma {:induction false} LeavingSum(a: seq<Status>, b: seq<Status>)
    requires AllLeave(a) && AllLeave(b)
    ensures AllLeave(a + b) && CellsLeaving(a + b) == CellsLeaving(a) + CellsLeaving(b)
  {
  }

  /** The least cell that arrives is the least cell there was. */
  lemma {:induction false} LeastArrives(kids: seq<Group>, level: nat)
    requires kids != [] && forall i :: 0 <= i < |kids| ==> GoesUp(kids[i], level)
    ensures AllLeave(ClimbAll(kids, level)) && CellsOfAll(kids) != []
    ensures IsMinimum(MinOf(CellsOfAll(kids)), CellsLeaving(ClimbAll(kids, level)))
    ensures forall i :: 0 <= i < |CellsOfAll(kids)| ==> CellsLeaving(ClimbAll(kids, level))[i] < level
    decreases |kids|
  {
    hide Climb, GoesUp, IsMinimum, CellsOf, MinOf, AllLeave, CellsLeaving;
    var a, b := Climb(kids[0], level), ClimbAll(kids[1..], level);
    KidArrives(kids[0], level);
    var m := MinOf(CellsOf(kids[0]));
    if |kids| == 1 {
      assert ClimbAll(kids, level) == a && CellsOfAll(kids) == CellsOf(kids[0]);
    } else {
      LeastArrives(kids[1..], level);
      var n := MinOf(CellsOfAll(kids[1..]));
      LeavingSum(a, b);
      MinOfSum(CellsLeaving(a), CellsLeaving(b), m, n);
      MinOfSum(CellsOf(kids[0]), CellsOfAll(kids[1..]), m, n);
      MinUnique(Min(m, n), MinOf(CellsOfAll(kids)), CellsOfAll(kids));
    }
  }

  lemma {:induction false} NeedSyncAll(kids: seq<Group>, total: nat, i: nat)
    requires (forall j :: 0 <= j < |kids| ==> |CellsOf(kids[j])| < total) && i < |CellsOfAll(kids)|
    ensures NeedSync(kids, total)[i]
    decreases |kids|
  {
    hide CellsOf;
    var n := |CellsOf(kids[0])|;
    if i >= n {
      NeedSyncAll(kids[1..], total, i - n);
    }
  }

  /** With two children or more, each has fewer tasks than their parent. */
  lemma {:induction false} KidIsSmaller(kids: seq<Group>, j: nat)
    requires (forall i :: 0 <= i < |kids| ==> CellsOf(kids[i]) != []) && j < |kids|
    ensures |CellsOf(kids[j])| <= |CellsOfAll(kids)|
    ensures |kids| >= 2 ==> |CellsOf(kids[j])| < |CellsOfAll(kids)|
    decreases |kids|
  {
    hide CellsOf;
    if j > 0 {
      KidIsSmaller(kids[1..], j - 1);
    } else if |kids| >= 2 {
      KidIsSmaller(kids[1..], 0);
    }
  }

  lemma {:induction false} InnerAgreement(kids: seq<Group>, level: nat)
    requires kids != [] && level < INVALID && CellsOfAll(kids) != []
    requires forall i :: 0 <= i < |kids| ==> Agrees(kids[i], level + 1)
    ensures Agrees(Inner(kids), level)
  {
    hide Climb, CellsOf, MinOf, ClimbAll, AllLeave, CellsOfAll;
    var g := Inner(kids);
    assert CellsOf(g) == CellsOfAll(kids) by { CellsOfInner(kids); }
    AllLeaveKids(kids, level + 1);
    if Drains(g, level) {
      InnerDrained(kids, level);
      ExpectedLeaves(|CellsOf(g)|, MinOf(CellsOf(g)), level);
    } else {
      InnerStays(kids, level);
    }
  }

  lemma CellsOfInner(kids: seq<Group>)
    ensures CellsOf(Inner(kids)) == CellsOfAll(kids)
  {
  }

  lemma {:induction false} ExpectedLeaves(n: nat, m: nat, level: nat)
    requires n > 0
    ensures AllLeave(seq(n, _ => Expected(m, level))) <==> m < level
  {
    assert seq(n, _ => Expected(m, level))[0] == Expected(m, level);
  }

  lemma {:induction false} InnerDrained(kids: seq<Group>, level: nat)
    requires kids != [] && level < INVALID && CellsOfAll(kids) != []
    requires forall i :: 0 <= i < |kids| ==> GoesUp(kids[i], level + 1)
    ensures Climb(Inner(kids), level) == seq(|CellsOfAll(kids)|, _ => Expected(MinOf(CellsOfAll(kids)), level))
  {
    hide Climb, MinOf, CellsOfAll, GoesUp;
    forall i | 0 <= i < |CellsOfAll(kids)|
      ensures Climb(Inner(kids), level)[i] == Expected(MinOf(CellsOfAll(kids)), level)
    {
      Meeting(kids, level, i);
    }
  }

  /** As long as somebody is missing nobody is let in. */
  lemma {:induction false} InnerStays(kids: seq<Group>, level: nat)
    requires !AllLeave(ClimbAll(kids, level + 1))
    ensures Climb(Inner(kids), level) == ClimbAll(kids, level + 1)
  {
    hide VisitCd;
  }

  /** One task in the visit of an inner CD to which all its tasks have come. */
  lemma {:induction false} Meeting(kids: seq<Group>, level: nat, i: nat)
    requires kids != [] && level < INVALID && i < |CellsOfAll(kids)|
    requires forall j :: 0 <= j < |kids| ==> GoesUp(kids[j], level + 1)
    ensures Climb(Inner(kids), level)[i] == Expected(MinOf(CellsOfAll(kids)), level)
  {
    hide VisitCd, Climb, ClimbAll, GoesUp, MinOf, CellsOf, CellsOfAll, NeedSync, CellsLeaving, AllLeave;
    var ss := ClimbAll(kids, level + 1);
    var m := MinOf(CellsOfAll(kids));
    LeastArrives(kids, level + 1);
    var cells, flags := CellsLeaving(ss), NeedSync(kids, |ss|);
    MinUnique(m, MinOf(cells), cells);
    assert cells[i] in cells;
    if |kids| >= 2 {
      forall j | 0 <= j < |kids|
        ensures CellsOf(kids[j]) != []
      {
        KidArrives(kids[j], level + 1);
      }
      Growing(kids, i);
    } else {
      OnlyKid(kids, level, i);
    }
    VisitMeans(level, |ss|, cells[i], flags[i], m);
    ClimbInner(kids, level, i);
  }

  lemma {:induction false} Growing(kids: seq<Group>, i: nat)
    requires |kids| >= 2 && i < |CellsOfAll(kids)| && forall j :: 0 <= j < |kids| ==> CellsOf(kids[j]) != []
    ensures |CellsOfAll(kids)| > 1 && NeedSync(kids, |CellsOfAll(kids)|)[i]
  {
    hide CellsOf, NeedSync, CellsOfAll;
    forall j | 0 <= j < |kids|
      ensures |CellsOf(kids[j])| < |CellsOfAll(kids)|
    {
      KidIsSmaller(kids, j);
    }
    assert CellsOf(kids[0]) != [];
    NeedSyncAll(kids, |CellsOfAll(kids)|, i);
  }

  /** An only child's tasks agree already. */
  lemma {:induction false} OnlyKid(kids: seq<Group>, level: nat, i: nat)
    requires |kids| == 1 && GoesUp(kids[0], level + 1) && i < |CellsOfAll(kids)|
    ensures !NeedSync(kids, |CellsOfAll(kids)|)[i]
    ensures AllLeave(ClimbAll(kids, level + 1))
    ensures CellsLeaving(ClimbAll(kids, level + 1))[i] == MinOf(CellsOfAll(kids)) <= level
  {
    hide Climb, GoesUp, IsMinimum, CellsOf, MinOf;
    KidArrives(kids[0], level + 1);
    assert ClimbAll(kids, level + 1) == Climb(kids[0], level + 1) && CellsOfAll(kids) == CellsOf(kids[0]);
  }

  lemma {:induction false} ClimbInner(kids: seq<Group>, level: nat, i: nat)
    requires
      var ss := ClimbAll(kids, level + 1);
      i < |ss| && AllLeave(ss)
    ensures
      var ss := ClimbAll(kids, level + 1);
      var cells := CellsLeaving(ss);
      Climb(Inner(kids), level)[i]
      == StatusOf(VisitCd(level, |ss|, cells[i], NeedSync(kids, |ss|)[i], MinOf(cells)), level)
  {
    hide VisitCd;
  }
}
