/** Splitting a CD's tasks among its children, and the names of the CDs in the tree that results. */
module Naming {
  import opened Bytes

  // ---- one digit ----

  /** A place in a part, and the part; Put is their inverse. */
  function Lo(x: nat, m: nat): nat
    requires m > 0
  {
    x % m
  }

  function Hi(x: nat, m: nat): nat
    requires m > 0
  {
    x / m
  }

  function Put(lo: nat, hi: nat, m: nat): nat
  {
    lo + hi * m
  }

  lemma {:induction false} MulLess(a: nat, b: nat, n: nat)
    requires a < b
    ensures a * n + n <= b * n
  {
    assert b * n == (a + 1) * n + (b - a - 1) * n;
  }

  lemma {:induction false} MulAtMost(a: nat, b: nat, n: nat)
    ensures a <= b ==> a * n <= b * n
  {
    if a <= b {
      assert b * n == a * n + (b - a) * n;
    }
  }

  lemma {:induction false} PutBound(lo: nat, hi: nat, m: nat, k: nat)
    requires lo < m && hi < k
    ensures Put(lo, hi, m) < k * m
  {
    MulLess(hi, k, m);
  }

  lemma {:induction false} DigitsOfPut(lo: nat, hi: nat, m: nat)
    requires lo < m
    ensures Lo(Put(lo, hi, m), m) == lo && Hi(Put(lo, hi, m), m) == hi
  {
    var x := Put(lo, hi, m);
    var q, r := x / m, x % m;
    assert x == q * m + r && r < m;
    if q > hi {
      MulLess(hi, q, m);
    } else if q < hi {
      MulLess(q, hi, m);
    }
  }

  lemma {:induction false} PutOfDigits(x: nat, m: nat)
    requires m > 0
    ensures Put(Lo(x, m), Hi(x, m), m) == x && Lo(x, m) < m
  {
  }

  lemma {:induction false} HiBound(x: nat, m: nat, k: nat)
    requires m > 0 && x < k * m
    ensures Hi(x, m) < k
  {
    PutOfDigits(x, m);
    MulAtMost(k, Hi(x, m), m);
  }

  /** Size and side of the parts when a side n is cut in c. */
  lemma {:induction false} PartOf(n: nat, c: nat)
    requires n > 0 && c > 0 && n % c == 0
    ensures n / c > 0 && n == c * (n / c)
  {
  }

  // ---- SplitCD_1D ----

  /** A child and a rank in it; None where the size is not divisible. */
  function Split1D(task: nat, size: nat, children: nat): (r: Option<(nat, nat)>)
    requires task < size && children > 0
    ensures r.Some? <==> size % children == 0
    ensures r.Some? ==> r.value.0 < children && r.value.1 < size / children
    ensures r.Some? ==> Put(r.value.1, r.value.0, size / children) == task
  {
    if size % children != 0 then None
    else
      PartOf(size, children);
      PutOfDigits(task, size / children);
      HiBound(task, size / children, children);
      Some((Hi(task, size / children), Lo(task, size / children)))
  }

  /** Children take consecutive blocks of tasks. */
  lemma {:induction false} Split1DBlocks(task: nat, size: nat, children: nat, color: nat)
    requires task < size && children > 0 && size % children == 0
    ensures
      var block := size / children;
      Split1D(task, size, children).value.0 == color <==> color * block <= task < (color + 1) * block
  {
    var block := size / children;
    PartOf(size, children);
    var k := Split1D(task, size, children).value.0;
    assert k * block <= task < k * block + block;
    if color < k {
      MulLess(color, k, block);
    } else if k < color {
      MulLess(k, color, block);
    }
  }

  /** Every place in every child goes to exactly one task. */
  lemma {:induction false} Split1DOnto(size: nat, children: nat, color: nat, rank: nat)
    requires children > 0 && size % children == 0 && color < children && rank < size / children
    ensures
      var task := Put(rank, color, size / children);
      task < size && Split1D(task, size, children) == Some((color, rank))
  {
    hide Lo, Hi, Put;
    PartOf(size, children);
    PutBound(rank, color, size / children, children);
    DigitsOfPut(rank, color, size / children);
  }

  // ---- SplitCD_3D ----

  datatype Point = Point(x: nat, y: nat, z: nat)

  predicate Inside(p: Point, n: nat)
  {
    p.x < n && p.y < n && p.z < n
  }

  function Cube(n: nat): nat
  {
    n * (n * n)
  }

  /** The number of a position in a cube of side n. */
  function At(p: Point, n: nat): nat
  {
    Put(Put(p.x, p.y, n), p.z, n * n)
  }

  function Digits(t: nat, n: nat): (p: Point)
    requires n > 0
  {
    var sz := n * n;
    Point(Lo(Lo(t, sz), n), Hi(Lo(t, sz), n), Hi(t, sz))
  }

  lemma {:induction false} DigitsOfAt(p: Point, n: nat)
    requires Inside(p, n)
    ensures At(p, n) < Cube(n) && Digits(At(p, n), n) == p
  {
    hide Lo, Hi, Put;
    PutBound(p.x, p.y, n, n);
    PutBound(Put(p.x, p.y, n), p.z, n * n, n);
    DigitsOfPut(p.x, p.y, n);
    DigitsOfPut(Put(p.x, p.y, n), p.z, n * n);
  }

  lemma {:induction false} AtOfDigits(t: nat, n: nat)
    requires n > 0 && t < Cube(n)
    ensures Inside(Digits(t, n), n) && At(Digits(t, n), n) == t
  {
    hide Lo, Hi, Put;
    var sz := n * n;
    assert sz > 0 by { MulLess(0, n, n); }
    PutOfDigits(t, sz);
    HiBound(t, sz, n);
    PutOfDigits(Lo(t, sz), n);
    HiBound(Lo(t, sz), n, n);
  }

  function Los(p: Point, m: nat): Point
    requires m > 0
  {
    Point(Lo(p.x, m), Lo(p.y, m), Lo(p.z, m))
  }

  function His(p: Point, m: nat): Point
    requires m > 0
  {
    Point(Hi(p.x, m), Hi(p.y, m), Hi(p.z, m))
  }

  function Puts(lo: Point, hi: Point, m: nat): Point
  {
    Point(Put(lo.x, hi.x, m), Put(lo.y, hi.y, m), Put(lo.z, hi.z, m))
  }

  /** What the assertions let through: sizes are cubes, and the part is the rounded-down quotient. */
  predicate Cubes(size: nat, children: nat, n: nat, c: nat)
  {
    && n > 0 && c > 0
    && size == Cube(n) && children == Cube(c)
    && n / c > 0 && Cube(n / c) == size / children
  }

  /** Child and rank in the child, for sides n of the parent and c of the children's cube. */
  function Split3D(task: nat, n: nat, c: nat): (nat, nat)
    requires n > 0 && c > 0 && n / c > 0
  {
    var m := n / c;
    (At(His(Digits(task, n), m), c), At(Los(Digits(task, n), m), m))
  }

  /** The task at a place of a child. */
  function Join3D(color: nat, rank: nat, n: nat, c: nat): nat
    requires n > 0 && c > 0 && n / c > 0
  {
    var m := n / c;
    At(Puts(Digits(rank, m), Digits(color, c), m), n)
  }

  /** In numbers: x runs fastest, then y, then z, in the parent, among the children and in a child. */
  lemma Split3DInNumbers(x: nat, y: nat, z: nat, n: nat, c: nat)
    requires x < n && y < n && z < n && c > 0 && n / c > 0
    ensures
      var m := n / c;
      && Split3D(x + y * n + z * (n * n), n, c).0 == x / m + y / m * c + z / m * (c * c)
      && Split3D(x + y * n + z * (n * n), n, c).1 == x % m + y % m * m + z % m * (m * m)
  {
    hide Digits;
    DigitsOfAt(Point(x, y, z), n);
    assert Digits(x + y * n + z * (n * n), n) == Point(x, y, z);
  }

  /** If the side divides, each task has its own place in its child. */
  lemma {:induction false} Split3DInverse(n: nat, c: nat, task: nat)
    requires n > 0 && c > 0 && n % c == 0 && n / c > 0 && task < Cube(n)
    ensures
      var (color, rank) := Split3D(task, n, c);
      color < Cube(c) && rank < Cube(n / c) && Join3D(color, rank, n, c) == task
  {
    hide Digits, At, Cube, Lo, Hi, Put;
    var m := n / c;
    PartOf(n, c);
    AtOfDigits(task, n);
    var p := Digits(task, n);
    Parts(p, m, c, n);
    DigitsOfAt(His(p, m), c);
    DigitsOfAt(Los(p, m), m);
  }

  lemma {:induction false} Parts(p: Point, m: nat, c: nat, n: nat)
    requires m > 0 && n == c * m && Inside(p, n)
    ensures Inside(His(p, m), c) && Inside(Los(p, m), m) && Puts(Los(p, m), His(p, m), m) == p
  {
    hide Lo, Hi, Put;
    HiBound(p.x, m, c);
    HiBound(p.y, m, c);
    HiBound(p.z, m, c);
    PutOfDigits(p.x, m);
    PutOfDigits(p.y, m);
    PutOfDigits(p.z, m);
  }

  lemma {:induction false} Whole(lo: Point, hi: Point, m: nat, c: nat, n: nat)
    requires m > 0 && n == c * m && Inside(lo, m) && Inside(hi, c)
    ensures Inside(Puts(lo, hi, m), n) && Los(Puts(lo, hi, m), m) == lo && His(Puts(lo, hi, m), m) == hi
  {
    hide Lo, Hi, Put;
    PutBound(lo.x, hi.x, m, c);
    PutBound(lo.y, hi.y, m, c);
    PutBound(lo.z, hi.z, m, c);
    DigitsOfPut(lo.x, hi.x, m);
    DigitsOfPut(lo.y, hi.y, m);
    DigitsOfPut(lo.z, hi.z, m);
  }

  /** And each place of each child has a task; a child's tasks are those of one sub-cube. */
  lemma {:induction false} Split3DOnto(n: nat, c: nat, color: nat, rank: nat)
    requires n > 0 && c > 0 && n % c == 0 && n / c > 0 && color < Cube(c) && rank < Cube(n / c)
    ensures
      var task := Join3D(color, rank, n, c);
      && task < Cube(n) && Split3D(task, n, c) == (color, rank)
      && His(Digits(task, n), n / c) == Digits(color, c)
  {
    hide Digits, At, Cube, Lo, Hi, Put, Los, His, Puts;
    var m := n / c;
    PartOf(n, c);
    AtOfDigits(color, c);
    AtOfDigits(rank, m);
    var k, r := Digits(color, c), Digits(rank, m);
    Whole(r, k, m, c, n);
    DigitsOfAt(Puts(r, k, m), n);
  }

  ghost predicate Injective3D(n: nat, c: nat)
    requires n > 0 && c > 0 && n / c > 0
  {
    forall s: nat, t: nat :: s < Cube(n) && t < Cube(n) && Split3D(s, n, c) == Split3D(t, n, c) ==> s == t
  }

  /** The split separates the tasks exactly if the children's side divides the side. */
  lemma {:induction false} Split3DExactly(n: nat, c: nat)
    requires n > 0 && c > 0 && n / c > 0
    ensures Injective3D(n, c) <==> n % c == 0
  {
    hide Split3D, Cube, Join3D, At;
    if n % c == 0 {
      forall s: nat, t: nat | s < Cube(n) && t < Cube(n) && Split3D(s, n, c) == Split3D(t, n, c)
        ensures s == t
      {
        Split3DInverse(n, c, s);
        Split3DInverse(n, c, t);
      }
    } else {
      Split3DCollides(n, c);
    }
  }

  /** Otherwise the tasks at (c * m, 0, 0) and (0, m, 0), where m is the rounded-down part, coincide. */
  lemma {:induction false} Split3DCollides(n: nat, c: nat)
    requires n > 0 && c > 0 && n / c > 0 && n % c != 0
    ensures
      var m := n / c;
      var s, t := At(Point(c * m, 0, 0), n), At(Point(0, m, 0), n);
      s != t && s < Cube(n) && t < Cube(n) && Split3D(s, n, c) == Split3D(t, n, c)
  {
    hide Digits, At, Cube;
    var m := n / c;
    RoundedDown(n, c);
    var p, q := Point(c * m, 0, 0), Point(0, m, 0);
    DigitsOfAt(p, n);
    DigitsOfAt(q, n);
    DigitsOfPut(0, c, m);
    DigitsOfPut(0, 1, m);
    DigitsOfPut(0, 0, m);
    assert His(p, m) == Point(c, 0, 0) && His(q, m) == Point(0, 1, 0);
    assert Los(p, m) == Los(q, m) == Point(0, 0, 0);
    SameNumber(c);
  }

  lemma {:induction false} SameNumber(c: nat)
    ensures At(Point(c, 0, 0), c) == At(Point(0, 1, 0), c)
  {
  }

  lemma {:induction false} RoundedDown(n: nat, c: nat)
    requires n > 0 && c > 0 && n / c > 0 && n % c != 0
    ensures c * (n / c) < n && n / c < n && n / c > 0
  {
    var m := n / c;
    assert n == c * m + n % c;
    MulAtMost(1, c, m);
  }

  /** The assertions let such a split through: 125 tasks among 64 children. */
  lemma AssertionsAllow5And4()
    ensures Cubes(125, 64, 5, 4) && !Injective3D(5, 4)
  {
    Split3DExactly(5, 4);
  }

  // ---- names of CDs in the tree ----

  datatype Name = Name(level: nat, phase: int, rank: nat, size: nat)

  const ROOT := Name(0, 0, 0, 1)

  /** The name of a child: its rank among all CDs of its level. */
  function ChildName(parent: Name, children: nat, color: nat): Name
  {
    Name(parent.level + 1, -1, children * parent.rank + color, children)
  }

  /** Fan-outs by level, and a choice of child at each level. */
  ghost predicate Path(colors: seq<nat>, fans: seq<nat>)
  {
    |colors| == |fans| && forall i :: 0 <= i < |fans| ==> colors[i] < fans[i]
  }

  function NameAt(colors: seq<nat>, fans: seq<nat>): Name
    requires |colors| == |fans|
  {
    if fans == [] then ROOT
    else
      var n := |fans| - 1;
      ChildName(NameAt(colors[..n], fans[..n]), fans[n], colors[n])
  }

  function Product(fans: seq<nat>): nat
  {
    if fans == [] then 1 else Product(fans[..|fans| - 1]) * fans[|fans| - 1]
  }

  function ColorsOf(rank: nat, fans: seq<nat>): (colors: seq<nat>)
    requires forall i :: 0 <= i < |fans| ==> fans[i] > 0
    ensures |colors| == |fans|
    decreases |fans|
  {
    if fans == [] then []
    else
      var n := |fans| - 1;
      ColorsOf(Hi(rank, fans[n]), fans[..n]) + [Lo(rank, fans[n])]
  }

  /** The rank tells the whole path, and lies below the product of the fan-outs. */
  lemma {:induction false} ColorsOfName(colors: seq<nat>, fans: seq<nat>)
    requires Path(colors, fans)
    ensures NameAt(colors, fans).level == |fans|
    ensures NameAt(colors, fans).rank < Product(fans)
    ensures ColorsOf(NameAt(colors, fans).rank, fans) == colors
    decreases |fans|
  {
    hide Lo, Hi;
    if fans != [] {
      var n := |fans| - 1;
      ColorsOfName(colors[..n], fans[..n]);
      var up := NameAt(colors[..n], fans[..n]).rank;
      assert NameAt(colors, fans).rank == Put(colors[n], up, fans[n]);
      PutBound(colors[n], up, fans[n], Product(fans[..n]));
      DigitsOfPut(colors[n], up, fans[n]);
    }
  }

  /** A root of four children, each of three: the second child's third child is the sixth of its level. */
  lemma ThirdOfSecond()
    ensures ChildName(ChildName(ROOT, 4, 1), 3, 2) == Name(2, -1, 5, 3)
    ensures NameAt([1, 2], [4, 3]) == Name(2, -1, 5, 3)
  {
    assert NameAt([], []) == ROOT;
    assert [1, 2][..1] == [1] && [4, 3][..1] == [4] && [1][..0] == [] && [4][..0] == [];
    assert NameAt([1], [4]) == ChildName(ROOT, 4, 1);
  }

  /** Every rank below the product of the fan-outs is some CD's. */
  lemma {:induction false} RanksFill(rank: nat, fans: seq<nat>)
    requires (forall i :: 0 <= i < |fans| ==> fans[i] > 0) && rank < Product(fans)
    ensures Path(ColorsOf(rank, fans), fans) && NameAt(ColorsOf(rank, fans), fans).rank == rank
    decreases |fans|
  {
    hide Lo, Hi;
    if fans != [] {
      var n := |fans| - 1;
      HiBound(rank, fans[n], Product(fans[..n]));
      PutOfDigits(rank, fans[n]);
      RanksFill(Hi(rank, fans[n]), fans[..n]);
      var cs := ColorsOf(rank, fans);
      assert cs[..n] == ColorsOf(Hi(rank, fans[n]), fans[..n]);
    }
  }

  /** Two CDs anywhere in the tree with the same level and rank are the same CD. */
  lemma {:induction false} NamesUnique(p: seq<nat>, q: seq<nat>, fans: seq<nat>)
    requires |p| <= |fans| && |q| <= |fans| && Path(p, fans[..|p|]) && Path(q, fans[..|q|])
    requires NameAt(p, fans[..|p|]).level == NameAt(q, fans[..|q|]).level
    requires NameAt(p, fans[..|p|]).rank == NameAt(q, fans[..|q|]).rank
    ensures p == q
  {
    ColorsOfName(p, fans[..|p|]);
    ColorsOfName(q, fans[..|q|]);
  }

  // ---- a task's way down ----

  function PartSize(size: nat, fans: seq<nat>): nat
    requires forall i :: 0 <= i < |fans| ==> fans[i] > 0
  {
    if fans == [] then size else PartSize(size, fans[..|fans| - 1]) / fans[|fans| - 1]
  }

  /** SplitCD_1D at each level: the task's colors, and its rank in the last CD. */
  function Descend(task: nat, size: nat, fans: seq<nat>): (r: Option<(seq<nat>, nat)>)
    requires task < size && forall i :: 0 <= i < |fans| ==> fans[i] > 0
    ensures r.Some? ==> |r.value.0| == |fans| && r.value.1 < PartSize(size, fans)
    decreases |fans|
  {
    if fans == [] then Some(([], task))
    else
      var n := |fans| - 1;
      var up :- Descend(task, size, fans[..n]);
      var down :- Split1D(up.1, PartSize(size, fans[..n]), fans[n]);
      Some((up.0 + [down.0], down.1))
  }

  lemma {:induction false} Regroup(lo: nat, c: nat, up: nat, part: nat, f: nat)
    ensures Put(Put(lo, c, part), up, f * part) == Put(lo, f * up + c, part)
  {
    assert up * (f * part) == (f * up) * part;
    assert (f * up + c) * part == (f * up) * part + c * part;
  }

  /** A task's rank in its CD and that CD's rank in its level are the digits of its original ID. */
  lemma {:induction false} TaskOfPath(task: nat, size: nat, fans: seq<nat>)
    requires task < size && (forall i :: 0 <= i < |fans| ==> fans[i] > 0) && Descend(task, size, fans).Some?
    ensures
      var (colors, rank) := Descend(task, size, fans).value;
      Path(colors, fans) && task == Put(rank, NameAt(colors, fans).rank, PartSize(size, fans))
    decreases |fans|
  {
    hide Put, Lo, Hi;
    if fans == [] {
      PutNothing(task, size);
    } else {
      var n := |fans| - 1;
      TaskOfPath(task, size, fans[..n]);
      var (colors, rank) := Descend(task, size, fans).value;
      var (above, place) := Descend(task, size, fans[..n]).value;
      var whole := PartSize(size, fans[..n]);
      assert colors[..n] == above;
      PartOf(whole, fans[n]);
      Regroup(rank, colors[n], NameAt(above, fans[..n]).rank, whole / fans[n], fans[n]);
    }
  }

  lemma PutNothing(task: nat, size: nat)
    ensures Put(task, 0, size) == task
  {
  }

  /** So its whole path of colors can be read off its original ID. */
  lemma {:induction false} PathRecovered(task: nat, size: nat, fans: seq<nat>)
    requires task < size && (forall i :: 0 <= i < |fans| ==> fans[i] > 0) && Descend(task, size, fans).Some?
    ensures
      var part := PartSize(size, fans);
      part > 0 && Descend(task, size, fans).value == (ColorsOf(Hi(task, part), fans), Lo(task, part))
  {
    hide Put, Lo, Hi;
    TaskOfPath(task, size, fans);
    var (colors, rank) := Descend(task, size, fans).value;
    ColorsOfName(colors, fans);
    DigitsOfPut(rank, NameAt(colors, fans).rank, PartSize(size, fans));
  }
}
