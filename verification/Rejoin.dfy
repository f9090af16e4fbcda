/**
  Several tasks until everybody has met: the tasks of a CD that re-executes go through it again and come to
  the Complete of the CD above, where those that left it wait in their visit.
 */
module Rejoin {
  import opened RollbackCells
  import opened Recovery
  import opened Agreement

  /** The cell a task brings to the CD above: Begin clears it for a re-execution, Complete leaves it as it is. */
  function Brings(s: Status): nat
  {
    match s
    case Leaves(c) => c
    case Works(c) => c
    case _ => INVALID
  }

  function BringAll(ss: seq<Status>): (cells: seq<nat>)
    ensures |cells| == |ss|
  {
    seq(|ss|, i requires 0 <= i < |ss| => Brings(ss[i]))
  }

  /** A task that comes to the Complete of a CD. */
  function EndCd(level: nat, size: nat, cell: nat, others: nat): Status
  {
    var c := CompleteCell(size, cell, true, others);
    if c > level then Works(c) else StatusOf(VisitCd(level, size, c, false, INVALID), level)
  }

  /** One task of a CD in which all its tasks meet, some in a visit, the others in its Complete. */
  function Meet(level: nat, s: Status, size: nat, flag: bool, others: nat): Status
  {
    match s
    case Leaves(c) => StatusOf(VisitCd(level, size, c, flag, others), level)
    case Stuck => Stuck
    case _ => EndCd(level, size, Brings(s), others)
  }

  /** All tasks of `g`, whose CD is at `level`, when they have met in all CDs below it and in this one. */
  function Settle(g: Group, level: nat): (ss: seq<Status>)
    ensures |ss| == |CellsOf(g)|
    decreases g, 1
  {
    match g
    case Leaf(cells) =>
      if cells == [] then []
      else seq(|cells|, i requires 0 <= i < |cells| => EndCd(level, |cells|, cells[i], MinOf(cells)))
    case Inner(kids) =>
      var ss := SettleAll(kids, level + 1);
      if ss == [] then []
      else
        var flags, least := NeedSync(kids, |ss|), MinOf(BringAll(ss));
        seq(|ss|, i requires 0 <= i < |ss| => Meet(level, ss[i], |ss|, flags[i], least))
  }

  function SettleAll(gs: seq<Group>, level: nat): (ss: seq<Status>)
    ensures |ss| == |CellsOfAll(gs)|
    decreases gs
  {
    if gs == [] then [] else Settle(gs[0], level) + SettleAll(gs[1..], level)
  }

  /** What the least of all cells asks for; whoever goes on keeps a cell from below its CD. */
  predicate Decides(s: Status, m: nat, level: nat)
  {
    if m > level then s.Works? && level < s.cell <= INVALID else s == Expected(m, level)
  }

  /** All tasks of `g` do the same, and what the least of all their cells asks for. */
  ghost predicate Unanimous(g: Group, level: nat)
  {
    var ss := Settle(g, level);
    ss != [] && (forall i :: 0 <= i < |ss| ==> ss[i] == ss[0]) && Decides(ss[0], MinOf(CellsOf(g)), level)
  }

  lemma {:induction false} EndMeans(level: nat, cells: seq<nat>, i: nat)
    requires level < INVALID && i < |cells| && forall j :: 0 <= j < |cells| ==> cells[j] <= INVALID
    ensures EndCd(level, |cells|, cells[i], MinOf(cells)) == Expected(MinOf(cells), level)
  {
    hide VisitCd, CompleteCell;
    CompleteAgreement(cells, i);
    assert MinOf(cells) in cells;
    VisitMeans(level, |cells|, MinOf(cells), false, INVALID);
  }

  // ---- who comes up, and with what ----

  /** The cells brought up from CDs at `level + 1`: the least one there was, if it is meant for here or above. */
  ghost predicate Brought(ss: seq<Status>, cells: seq<nat>, level: nat)
  {
    && |ss| == |cells| > 0
    && (forall i :: 0 <= i < |ss| ==> !ss[i].Stuck? && Brings(ss[i]) <= INVALID)
    && (forall i :: 0 <= i < |ss| && ss[i].Leaves? ==> ss[i].cell <= level)
    && var m, b := MinOf(cells), MinOf(BringAll(ss));
    if m <= level then b == m else b > level
  }

  lemma {:induction false} KidBrings(g: Group, level: nat)
    requires Unanimous(g, level + 1) && level < INVALID
    ensures Brought(Settle(g, level + 1), CellsOf(g), level)
  {
    hide Settle, CellsOf, MinOf;
    var ss := Settle(g, level + 1);
    var b := BringAll(ss);
    assert b[0] in b;
    assert forall i :: 0 <= i < |b| ==> b[i] == b[0];
    MinUnique(MinOf(b), b[0], b);
  }

  lemma {:induction false} BringSum(a: seq<Status>, b: seq<Status>, x: seq<nat>, y: seq<nat>, level: nat)
    requires Brought(a, x, level) && Brought(b, y, level) && level < INVALID
    ensures Brought(a + b, x + y, level)
  {
    hide MinOf;
    assert BringAll(a + b) == BringAll(a) + BringAll(b);
    MinOfSum(BringAll(a), BringAll(b), MinOf(BringAll(a)), MinOf(BringAll(b)));
    MinUnique(MinOf(BringAll(a + b)), Min(MinOf(BringAll(a)), MinOf(BringAll(b))), BringAll(a + b));
    MinOfSum(x, y, MinOf(x), MinOf(y));
    MinUnique(MinOf(x + y), Min(MinOf(x), MinOf(y)), x + y);
  }

  lemma {:induction false} KidsBring(kids: seq<Group>, level: nat)
    requires kids != [] && level < INVALID && forall i :: 0 <= i < |kids| ==> Unanimous(kids[i], level + 1)
    ensures Brought(SettleAll(kids, level + 1), CellsOfAll(kids), level)
    decreases |kids|
  {
    hide Unanimous, Brought, Settle, CellsOf;
    KidBrings(kids[0], level);
    if |kids| == 1 {
      assert SettleAll(kids, level + 1) == Settle(kids[0], level + 1) && CellsOfAll(kids) == CellsOf(kids[0]);
    } else {
      KidsBring(kids[1..], level);
      BringSum(Settle(kids[0], level + 1), SettleAll(kids[1..], level + 1),
               CellsOf(kids[0]), CellsOfAll(kids[1..]), level);
    }
  }

  // ---- everybody decides alike ----

  /** Whether a task waits in its visit or comes to the Complete, it does what the least cell brought asks for. */
  lemma {:induction false} MeetMeans(ss: seq<Status>, cells: seq<nat>, level: nat, i: nat, flag: bool)
    requires Brought(ss, cells, level) && level < INVALID && i < |ss|
    requires if flag then |ss| > 1 else Brings(ss[i]) == MinOf(BringAll(ss))
    ensures Meet(level, ss[i], |ss|, flag, MinOf(BringAll(ss))) == Expected(MinOf(BringAll(ss)), level)
  {
    hide VisitCd, EndCd, MinOf;
    var b := BringAll(ss);
    var least := MinOf(b);
    assert b[i] in b;
    if ss[i].Leaves? {
      VisitMeans(level, |ss|, ss[i].cell, flag, least);
    } else {
      EndMeans(level, b, i);
    }
  }

  lemma {:induction false} MeetAll(kids: seq<Group>, level: nat, i: nat)
    requires kids != [] && level < INVALID && i < |CellsOfAll(kids)|
    requires forall j :: 0 <= j < |kids| ==> Unanimous(kids[j], level + 1)
    ensures
      var least := MinOf(BringAll(SettleAll(kids, level + 1)));
      && Settle(Inner(kids), level)[i] == Expected(least, level)
      && Decides(Expected(least, level), MinOf(CellsOfAll(kids)), level)
  {
    hide Meet, CellsOf, MinOf, CellsOfAll, NeedSync, SettleAll;
    var ss := SettleAll(kids, level + 1);
    var flags := NeedSync(kids, |ss|);
    KidsBring(kids, level);
    if |kids| >= 2 {
      forall j | 0 <= j < |kids|
        ensures CellsOf(kids[j]) != []
      {
        SomeCells(kids[j], level + 1);
      }
      Growing(kids, i);
    } else {
      OnlyOne(kids, level, i);
    }
    MeetMeans(ss, CellsOfAll(kids), level, i, flags[i]);
    var b := BringAll(ss);
    assert MinOf(b) in b;
  }

  lemma SomeCells(g: Group, level: nat)
    requires Unanimous(g, level)
    ensures CellsOf(g) != []
  {
  }

  lemma {:induction false} OnlyOne(kids: seq<Group>, level: nat, i: nat)
    requires |kids| == 1 && Unanimous(kids[0], level + 1) && i < |CellsOfAll(kids)|
    ensures
      var ss := SettleAll(kids, level + 1);
      ss != [] && Brings(ss[i]) == MinOf(BringAll(ss)) && !NeedSync(kids, |ss|)[i]
  {
    hide Settle, CellsOf, MinOf;
    var ss := SettleAll(kids, level + 1);
    assert ss == Settle(kids[0], level + 1) && CellsOfAll(kids) == CellsOf(kids[0]);
    var b := BringAll(ss);
    assert forall j :: 0 <= j < |b| ==> b[j] == b[i];
    assert MinOf(b) in b;
  }

  /**
    Agreement without any condition: in a tree of CDs of any shape, once the tasks that re-executed below
    have come up too, all tasks of a CD decide alike, by the least of all cells there were.
   */
  lemma {:induction false} EverybodyMeets(g: Group, level: nat)
    requires Proper(g, level)
    ensures Unanimous(g, level)
    decreases g
  {
    hide Meet, MinOf, EndCd, Unanimous, Settle;
    SomeTasks(g, level);
    match g
    case Leaf(cells) =>
      forall i | 0 <= i < |cells|
        ensures Settle(g, level)[i] == Expected(MinOf(cells), level)
      {
        SettleLeaf(cells, level, i);
        EndMeans(level, cells, i);
      }
      assert MinOf(cells) in cells;
      AllSame(g, level, Expected(MinOf(cells), level));
    case Inner(kids) =>
      forall i | 0 <= i < |kids|
        ensures Unanimous(kids[i], level + 1)
      {
        EverybodyMeets(kids[i], level + 1);
      }
      var least := MinOf(BringAll(SettleAll(kids, level + 1)));
      forall i | 0 <= i < |CellsOf(g)|
        ensures Settle(g, level)[i] == Expected(least, level)
      {
        MeetAll(kids, level, i);
      }
      MeetAll(kids, level, 0);
      AllSame(g, level, Expected(least, level));
  }

  lemma SettleLeaf(cells: seq<nat>, level: nat, i: nat)
    requires i < |cells|
    ensures Settle(Leaf(cells), level)[i] == EndCd(level, |cells|, cells[i], MinOf(cells))
  {
  }

  lemma {:induction false} AllSame(g: Group, level: nat, s: Status)
    requires CellsOf(g) != [] && Decides(s, MinOf(CellsOf(g)), level)
    requires forall i :: 0 <= i < |CellsOf(g)| ==> Settle(g, level)[i] == s
    ensures Unanimous(g, level)
  {
    hide Settle, CellsOf, MinOf;
  }
}
