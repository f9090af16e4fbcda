/** Message tags: the width MPI allows, and a CD's level, rank and task packed into it. */
module Tags {
  import opened Naming

  // ---- the width ----

  function Pow2(n: nat): (p: nat)
    ensures p > 0
  {
    if n == 0 then 1 else 2 * Pow2(n - 1)
  }

  const INT_MAX: nat := 0x7FFF_FFFF

  /** MPI_TAG_UB plus one, computed as an int and then widened to 64 bits. */
  function Bound(ub: nat): nat
  {
    if ub == INT_MAX then 0x1_0000_0000_0000_0000 - 0x8000_0000 else ub + 1
  }

  lemma {:induction false} Pow2Mono(a: nat, b: nat)
    requires a <= b
    ensures Pow2(a) <= Pow2(b)
    decreases b
  {
    if a < b {
      Pow2Mono(a, b - 1);
    }
  }

  lemma {:induction false} Powers()
    ensures Pow2(8) == 0x100 && Pow2(31) == 0x8000_0000
    ensures Pow2(63) == 0x8000_0000_0000_0000 && Pow2(64) == 0x1_0000_0000_0000_0000
  {
    assert Pow2(8) == 0x100;
    assert Pow2(16) == 0x1_0000;
    assert Pow2(24) == 0x100_0000;
    assert Pow2(31) == 0x8000_0000;
    assert Pow2(40) == 0x100_0000_0000;
    assert Pow2(48) == 0x1_0000_0000_0000;
    assert Pow2(56) == 0x100_0000_0000_0000;
    assert Pow2(63) == 0x8000_0000_0000_0000;
    assert Pow2(64) == 0x1_0000_0000_0000_0000;
  }

  /** The scan for the highest set bit, from bit 63 down; the source's first test, of bit 64, is undefined. */
  method HighestBit(v: nat) returns (w: nat)
    requires 0 < v < Pow2(64)
    ensures Pow2(w) <= v < Pow2(w + 1) && w < 64
  {
    var cnt := 63;
    while cnt >= 0
      invariant -1 <= cnt <= 63 && v < Pow2(cnt + 1)
    {
      if v / Pow2(cnt) % 2 == 1 {
        assert v >= Pow2(cnt) by { TestedBit(v, cnt); }
        return cnt;
      }
      ClearBit(v, cnt);
      cnt := cnt - 1;
    }
    assert false;
  }

  lemma {:induction false} TestedBit(v: nat, cnt: nat)
    requires v / Pow2(cnt) % 2 == 1
    ensures v >= Pow2(cnt)
  {
    var p := Pow2(cnt);
    assert v / p >= 1;
    assert v == v / p * p + v % p;
  }

  lemma {:induction false} ClearBit(v: nat, cnt: nat)
    requires v / Pow2(cnt) % 2 == 0 && v < Pow2(cnt + 1)
    ensures v < Pow2(cnt)
  {
    EvenQuotient(v, Pow2(cnt));
  }

  lemma {:induction false} EvenQuotient(v: nat, p: nat)
    requires p > 0 && v / p % 2 == 0 && v < 2 * p
    ensures v < p
  {
    var q := v / p;
    assert v == q * p + v % p;
    if q >= 2 {
      MulAtMost(2, q, p);
    }
  }

  /** The scan gives a width between 8 and 30 exactly for upper bounds from 255 to INT_MAX - 1. */
  lemma {:induction false} WidthInRange(ub: nat, w: nat)
    requires ub <= INT_MAX && Pow2(w) <= Bound(ub) < Pow2(w + 1)
    ensures 8 <= w <= 30 <==> 255 <= ub < INT_MAX
    ensures ub == INT_MAX ==> w == 63
  {
    Powers();
    Order(w + 1, 8);
    Order(8, w);
    Order(31, w);
    Order(w + 1, 31);
    Order(w + 1, 63);
    Order(64, w);
  }

  lemma {:induction false} Order(a: nat, b: nat)
    ensures a <= b ==> Pow2(a) <= Pow2(b)
  {
    if a <= b {
      Pow2Mono(a, b);
    }
  }

  // ---- the fields ----

  /** Bitwise or. */
  function Or(a: nat, b: nat): nat
  {
    if a == 0 && b == 0 then 0 else 2 * Or(a / 2, b / 2) + (if a % 2 == 1 || b % 2 == 1 then 1 else 0)
  }

  lemma {:induction false} OrZero(b: nat)
    ensures Or(0, b) == b
    decreases b
  {
    if b != 0 {
      OrZero(b / 2);
    }
  }

  lemma {:induction false} OrCommutes(a: nat, b: nat)
    ensures Or(a, b) == Or(b, a)
    decreases a + b
  {
    if a != 0 || b != 0 {
      OrCommutes(a / 2, b / 2);
    }
  }

  lemma {:induction false} OrBound(a: nat, b: nat, k: nat)
    requires a < Pow2(k) && b < Pow2(k)
    ensures Or(a, b) < Pow2(k)
    decreases k
  {
    if k > 0 && (a != 0 || b != 0) {
      OrBound(a / 2, b / 2, k - 1);
    }
  }

  /** Fields that do not overlap add up. */
  lemma {:induction false} OrIsPut(lo: nat, hi: nat, k: nat)
    requires lo < Pow2(k)
    ensures Or(Put(0, hi, Pow2(k)), lo) == Put(lo, hi, Pow2(k))
    decreases k
  {
    if k == 0 {
      OrCommutes(hi, 0);
      OrZero(hi);
    } else {
      var p := Pow2(k - 1);
      assert hi * (2 * p) == 2 * (hi * p);
      OrIsPut(lo / 2, hi, k - 1);
      assert Put(0, hi, Pow2(k)) / 2 == Put(0, hi, p) && Put(0, hi, Pow2(k)) % 2 == 0;
    }
  }

  lemma {:induction false} PowSum(a: nat, b: nat)
    ensures Pow2(a + b) == Pow2(a) * Pow2(b)
    decreases a
  {
    if a > 0 {
      PowSum(a - 1, b);
      TwiceProduct(Pow2(a - 1), Pow2(b));
    }
  }

  lemma TwiceProduct(x: nat, y: nat)
    ensures 2 * (x * y) == (2 * x) * y
  {
  }

  /** Left shift of a uint32. */
  function Shl(x: nat, k: nat): nat
  {
    x * Pow2(k) % Pow2(32)
  }

  const LEVEL_BITS: nat := 6

  predicate Width(w: nat)
  {
    8 <= w <= 30
  }

  function RankBit(w: nat): nat
    requires Width(w)
  {
    w - LEVEL_BITS - 1
  }

  function TaskBit(w: nat): nat
    requires Width(w)
  {
    RankBit(w) / 2
  }

  /** CDID::GenMsgTagForSameCD: the fields, cut to the width, with the top bit set. */
  function GenTag(w: nat, level: nat, rank: nat, task: nat): nat
    requires Width(w)
  {
    Or(Or(Or(Shl(level, RankBit(w)), Shl(rank, TaskBit(w))), task) % Pow2(w), Pow2(w - 1))
  }

  /** Every field within its bits. */
  predicate InFields(w: nat, level: nat, rank: nat, task: nat)
    requires Width(w)
  {
    level < Pow2(LEVEL_BITS) && rank < Pow2(RankBit(w) - TaskBit(w)) && task < Pow2(TaskBit(w))
  }

  /** Whatever the arguments, the tag is one that MPI accepts. */
  lemma {:induction false} TagFits(ub: nat, w: nat, level: nat, rank: nat, task: nat)
    requires ub < INT_MAX && Pow2(w) <= Bound(ub) && Width(w)
    ensures GenTag(w, level, rank, task) <= ub
  {
    hide Or, Shl;
    OrBound(Or(Or(Shl(level, RankBit(w)), Shl(rank, TaskBit(w))), task) % Pow2(w), Pow2(w - 1), w);
  }

  lemma {:induction false} NoOverflow(x: nat, k: nat, bits: nat)
    requires x < Pow2(bits) && bits + k <= 32
    ensures Shl(x, k) == Put(0, x, Pow2(k)) && Put(0, x, Pow2(k)) < Pow2(bits + k)
  {
    hide Pow2;
    PutBound(0, x, Pow2(k), Pow2(bits));
    PowSum(bits, k);
    Pow2Mono(bits + k, 32);
    Small(x * Pow2(k), Pow2(32));
  }

  lemma Small(x: nat, m: nat)
    requires x < m
    ensures x % m == x
  {
  }

  /** Within the fields, the tag is plain mixed-radix notation under a leading one. */
  lemma {:induction false} TagIsPut(w: nat, level: nat, rank: nat, task: nat)
    requires Width(w) && InFields(w, level, rank, task)
    ensures
      var low := Put(task, rank, Pow2(TaskBit(w)));
      && low < Pow2(RankBit(w)) && Put(low, level, Pow2(RankBit(w))) < Pow2(w - 1)
      && GenTag(w, level, rank, task) == Put(Put(low, level, Pow2(RankBit(w))), 1, Pow2(w - 1))
  {
    hide Or, Shl, Put, Pow2;
    var rb, tb := RankBit(w), TaskBit(w);
    FieldsAdd(level, rank, task, rb, tb);
    var all := Put(Put(task, rank, Pow2(tb)), level, Pow2(rb));
    Pow2Mono(w - 1, w);
    Small(all, Pow2(w));
    OrCommutes(all, Pow2(w - 1));
    OrIsPut(all, 1, w - 1);
    One(Pow2(w - 1));
  }

  lemma {:induction false} FieldsAdd(level: nat, rank: nat, task: nat, rb: nat, tb: nat)
    requires tb <= rb <= 26 && level < Pow2(LEVEL_BITS) && rank < Pow2(rb - tb) && task < Pow2(tb)
    ensures
      var low := Put(task, rank, Pow2(tb));
      && low < Pow2(rb) && Put(low, level, Pow2(rb)) < Pow2(LEVEL_BITS + rb)
      && Or(Or(Shl(level, rb), Shl(rank, tb)), task) == Put(low, level, Pow2(rb))
  {
    hide Or, Shl, Put, Pow2;
    NoOverflow(level, rb, LEVEL_BITS);
    NoOverflow(rank, tb, rb - tb);
    PutBound(task, rank, Pow2(tb), Pow2(rb - tb));
    PowSum(rb - tb, tb);
    PutBound(Put(task, rank, Pow2(tb)), level, Pow2(rb), Pow2(LEVEL_BITS));
    PowSum(LEVEL_BITS, rb);
    OrIsPut(Put(0, rank, Pow2(tb)), level, rb);
    var f := Pow2(rb - tb);
    Regroup(0, rank, level, Pow2(tb), f);
    OrIsPut(task, f * level + rank, tb);
    Regroup(task, rank, level, Pow2(tb), f);
  }

  lemma One(p: nat)
    ensures Put(0, 1, p) == p
  {
  }

  /** In numbers: six bits of level under the top bit, and what is left is halved between rank and task. */
  lemma {:induction false} TagInNumbers(w: nat, level: nat, rank: nat, task: nat)
    requires 8 <= w <= 30 && level < 64 && rank < Pow2((w - 7) - (w - 7) / 2) && task < Pow2((w - 7) / 2)
    ensures GenTag(w, level, rank, task) == Pow2(w - 1) + level * Pow2(w - 7) + rank * Pow2((w - 7) / 2) + task
    ensures LevelOf(w, GenTag(w, level, rank, task)) == level
  {
    hide Or, Shl, Pow2, LevelOf, GenTag;
    assert Pow2(6) == 64 by { SixBits(); }
    TagDecodes(w, level, rank, task);
    TagIsPut(w, level, rank, task);
  }

  lemma SixBits()
    ensures Pow2(6) == 64 && Pow2(0) == 1
  {
    assert Pow2(3) == 8;
  }

  /** The widest tag: level 1, rank and task 0. */
  lemma {:induction false} FirstChildTag()
    ensures GenTag(30, 1, 0, 0) == 0x2080_0000
  {
    hide GenTag;
    TagInNumbers(30, 1, 0, 0);
    assert Pow2(23) == 0x80_0000 && Pow2(29) == 0x2000_0000 by { BigPowers(); }
  }

  lemma BigPowers()
    ensures Pow2(23) == 0x80_0000 && Pow2(29) == 0x2000_0000
  {
    SixBits();
    PowSum(6, 6);
    PowSum(12, 6);
    PowSum(18, 5);
    PowSum(23, 6);
  }

  // ---- and back ----

  function LevelOf(w: nat, tag: nat): nat
    requires Width(w)
  {
    Hi(Lo(tag, Pow2(w - 1)), Pow2(RankBit(w)))
  }

  function RankOf(w: nat, tag: nat): nat
    requires Width(w)
  {
    Hi(Lo(Lo(tag, Pow2(w - 1)), Pow2(RankBit(w))), Pow2(TaskBit(w)))
  }

  function TaskOf(w: nat, tag: nat): nat
    requires Width(w)
  {
    Lo(Lo(Lo(tag, Pow2(w - 1)), Pow2(RankBit(w))), Pow2(TaskBit(w)))
  }

  /** Within the fields the tag tells level, rank and task: no two of them share a tag. */
  lemma {:induction false} TagDecodes(w: nat, level: nat, rank: nat, task: nat)
    requires Width(w) && InFields(w, level, rank, task)
    ensures
      var tag := GenTag(w, level, rank, task);
      LevelOf(w, tag) == level && RankOf(w, tag) == rank && TaskOf(w, tag) == task
  {
    hide Lo, Hi, Put, Pow2, GenTag;
    TagIsPut(w, level, rank, task);
    var low := Put(task, rank, Pow2(TaskBit(w)));
    var all := Put(low, level, Pow2(RankBit(w)));
    DigitsOfPut(all, 1, Pow2(w - 1));
    DigitsOfPut(low, level, Pow2(RankBit(w)));
    DigitsOfPut(task, rank, Pow2(TaskBit(w)));
  }

  /** And only then: what is read back always lies within the fields. */
  lemma {:induction false} TagDecodesExactly(w: nat, level: nat, rank: nat, task: nat)
    requires Width(w)
    ensures
      var tag := GenTag(w, level, rank, task);
      LevelOf(w, tag) == level && RankOf(w, tag) == rank && TaskOf(w, tag) == task
      <==> InFields(w, level, rank, task)
  {
    hide Lo, Hi, Put, Pow2, GenTag;
    var tag, rb, tb := GenTag(w, level, rank, task), RankBit(w), TaskBit(w);
    var all := Lo(tag, Pow2(w - 1));
    PutOfDigits(tag, Pow2(w - 1));
    PutOfDigits(all, Pow2(rb));
    PutOfDigits(Lo(all, Pow2(rb)), Pow2(tb));
    PowSum(LEVEL_BITS, rb);
    HiBound(all, Pow2(rb), Pow2(LEVEL_BITS));
    PowSum(rb - tb, tb);
    HiBound(Lo(all, Pow2(rb)), Pow2(tb), Pow2(rb - tb));
    if InFields(w, level, rank, task) {
      TagDecodes(w, level, rank, task);
    }
  }

  /** Past its field, a rank runs into the level: the next level's first CD has the same tag. */
  lemma {:induction false} RankRunsOver(w: nat, level: nat, task: nat)
    requires Width(w) && InFields(w, level + 1, 0, task) && level % 2 == 0
    ensures GenTag(w, level, Pow2(RankBit(w) - TaskBit(w)), task) == GenTag(w, level + 1, 0, task)
  {
    hide Or, Shl, Put, Pow2;
    var rb, tb := RankBit(w), TaskBit(w);
    NoOverflow(level, rb, LEVEL_BITS);
    NoOverflow(level + 1, rb, LEVEL_BITS);
    Over(rb, tb);
    EvenOr(level, rb);
    OrCommutes(Shl(level + 1, rb), 0);
    OrZero(Shl(level + 1, rb));
  }

  lemma {:induction false} ShlSmall(x: nat, k: nat)
    requires x * Pow2(k) < Pow2(32)
    ensures Shl(x, k) == x * Pow2(k)
  {
    hide Pow2;
    Small(x * Pow2(k), Pow2(32));
  }

  lemma {:induction false} Over(rb: nat, tb: nat)
    requires tb <= rb <= 31
    ensures Shl(Pow2(rb - tb), tb) == Pow2(rb) && Shl(0, tb) == 0
  {
    hide Pow2, Shl;
    PowSum(rb - tb, tb);
    Room(rb);
    ShlSmall(Pow2(rb - tb), tb);
    ZeroTimes(tb);
    ShlSmall(0, tb);
  }

  lemma {:induction false} Room(k: nat)
    requires k <= 31
    ensures Pow2(k) < Pow2(32)
    decreases 31 - k
  {
    if k < 31 {
      Room(k + 1);
    }
  }

  lemma ZeroTimes(k: nat)
    ensures 0 * Pow2(k) == 0
  {
  }

  lemma {:induction false} EvenOr(level: nat, k: nat)
    requires level % 2 == 0
    ensures Or(Put(0, level, Pow2(k)), Pow2(k)) == Put(0, level + 1, Pow2(k))
    decreases k
  {
    hide Or, Put;
    if k == 0 {
      EvenOrOne(level);
    } else {
      var p := Pow2(k - 1);
      EvenOr(level, k - 1);
      Doubled(level, p);
      Doubled(level + 1, p);
      OrOfDoubles(Put(0, level, p), p);
    }
  }

  lemma {:induction false} EvenOrOne(level: nat)
    requires level % 2 == 0
    ensures Or(Put(0, level, 1), 1) == Put(0, level + 1, 1)
  {
    OrCommutes(level / 2, 0);
    OrZero(level / 2);
    assert Or(level, 1) == 2 * Or(level / 2, 0) + 1;
  }

  lemma {:induction false} Doubled(x: nat, p: nat)
    ensures Put(0, x, 2 * p) == 2 * Put(0, x, p)
  {
  }

  lemma {:induction false} OrOfDoubles(a: nat, b: nat)
    ensures Or(2 * a, 2 * b) == 2 * Or(a, b)
  {
    assert 2 * a / 2 == a && 2 * b / 2 == b;
  }
}
