/** In-memory representation of the runtime's integers: little-endian bytes, as memcpy moves them. */
module Bytes {

  type byte = x: int | 0 <= x < 256

  datatype Option<+T> = None | Some(value: T) {
    predicate IsFailure() { None? }
    function PropagateFailure<U>(): Option<U> requires None? { None }
    function Extract(): T requires Some? { value }
  }

  const WORD := 8   // sizeof(uint64_t)
  const INT := 4    // sizeof(int)
  const U32 := 0x1_0000_0000
  const U64 := 0x1_0000_0000_0000_0000

  function Pow256(k: nat): (p: nat)
    ensures p >= 1
  {
    if k == 0 then 1 else 256 * Pow256(k - 1)
  }

  /** The low `k` bytes of `x`. */
  function Enc(x: nat, k: nat): (s: seq<byte>)
    ensures |s| == k
  {
    if k == 0 then [] else [x % 256] + Enc(x / 256, k - 1)
  }

  function Dec(s: seq<byte>): (x: nat)
    ensures x < Pow256(|s|)
  {
    if s == [] then 0 else s[0] + 256 * Dec(s[1..])
  }

  lemma {:induction false} DecEnc(x: nat, k: nat)
    requires x < Pow256(k)
    ensures Dec(Enc(x, k)) == x
  {
    if k > 0 {
      DecEnc(x / 256, k - 1);
      assert Enc(x, k)[1..] == Enc(x / 256, k - 1);
    }
  }

  lemma {:induction false} DecInjective(a: seq<byte>, b: seq<byte>)
    requires |a| == |b| && Dec(a) == Dec(b)
    ensures a == b
    decreases |a|
  {
    if a != [] {
      assert Dec(a) % 256 == a[0] && Dec(b) % 256 == b[0];
      DecInjective(a[1..], b[1..]);
      assert a == [a[0]] + a[1..] && b == [b[0]] + b[1..];
    }
  }

  lemma WordRange()
    ensures Pow256(WORD) == U64 && Pow256(INT) == U32
  {
    assert Pow256(1) == 256 && Pow256(2) == 0x1_0000 && Pow256(3) == 0x100_0000;
    assert Pow256(4) == U32 && Pow256(5) == 0x100_0000_0000;
    assert Pow256(6) == 0x1_0000_0000_0000 && Pow256(7) == 0x100_0000_0000_0000;
  }

  function Word(x: nat): (s: seq<byte>)
    ensures |s| == WORD
    ensures x < U64 ==> Dec(s) == x
  {
    WordRange();
    assert x < U64 ==> Dec(Enc(x, WORD)) == x by { if x < U64 { DecEnc(x, WORD); } }
    Enc(x, WORD)
  }

  function Int(x: nat): (s: seq<byte>)
    ensures |s| == INT
    ensures x < U32 ==> Dec(s) == x
  {
    WordRange();
    assert x < U32 ==> Dec(Enc(x, INT)) == x by { if x < U32 { DecEnc(x, INT); } }
    Enc(x, INT)
  }

  lemma {:induction false} FourBytes(a: byte, b: byte, c: byte, d: byte)
    ensures Enc(a + 256 * (b + 256 * (c + 256 * d)), 4) == [a, b, c, d]
  {
    EncStep(d, 1);
    EncStep(c + 256 * d, 2);
    EncStep(b + 256 * (c + 256 * d), 3);
    EncStep(a + 256 * (b + 256 * (c + 256 * d)), 4);
  }

  lemma {:induction false} EncStep(x: nat, k: nat)
    requires k > 0
    ensures Enc(x, k) == [x % 256] + Enc(x / 256, k - 1) && Enc(x, 0) == []
  {
  }

  lemma IntIs(x: nat)
    ensures Int(x) == Enc(x, 4)
  {
  }

  /** Numbers lie in memory with the low byte first. */
  lemma {:induction false} SmallInts()
    ensures Int(0) == [0, 0, 0, 0] && Int(1) == [1, 0, 0, 0] && Int(0x0403_0201) == [1, 2, 3, 4]
  {
    hide Int, Enc;
    IntIs(0);
    IntIs(1);
    IntIs(0x0403_0201);
    FourBytes(0, 0, 0, 0);
    FourBytes(1, 0, 0, 0);
    FourBytes(1, 2, 3, 4);
  }

  // ---- copies ----

  function Slice(buf: seq<byte>, at: nat, n: nat): (r: seq<byte>)
    requires at + n <= |buf|
    ensures |r| == n
  {
    buf[at..at + n]
  }

  /** memcpy(buf + at, src, |src|) */
  function Splice(buf: seq<byte>, at: nat, src: seq<byte>): (r: seq<byte>)
    requires at + |src| <= |buf|
    ensures |r| == |buf|
  {
    buf[..at] + src + buf[at + |src|..]
  }

  lemma SpliceParts(buf: seq<byte>, at: nat, src: seq<byte>)
    requires at + |src| <= |buf|
    ensures Splice(buf, at, src)[at..at + |src|] == src
    ensures Splice(buf, at, src)[..at] == buf[..at]
    ensures Splice(buf, at, src)[at + |src|..] == buf[at + |src|..]
  {
  }

  lemma SliceSplice(buf: seq<byte>, at: nat, src: seq<byte>)
    requires at + |src| <= |buf|
    ensures Slice(Splice(buf, at, src), at, |src|) == src
  {
    SpliceParts(buf, at, src);
  }

  lemma SliceOfSlice(buf: seq<byte>, at: nat, n: nat, p: nat, m: nat)
    requires at + n <= |buf| && p + m <= n
    ensures Slice(Slice(buf, at, n), p, m) == Slice(buf, at + p, m)
  {
    var x := buf[at..at + n][p..p + m];
    var y := buf[at + p..at + p + m];
    assert |x| == |y|;
    assert forall i :: 0 <= i < m ==> x[i] == buf[at + p + i] == y[i];
    assert x == y;
  }

  /** A copy into one place is not seen at a disjoint place. */
  lemma SpliceElsewhere(buf: seq<byte>, at: nat, src: seq<byte>, p: nat, n: nat)
    requires at + |src| <= |buf| && p + n <= |buf|
    requires p + n <= at || at + |src| <= p
    ensures Slice(Splice(buf, at, src), p, n) == Slice(buf, p, n)
  {
    SpliceParts(buf, at, src);
    if p + n <= at {
      SliceOfSlice(buf, 0, at, p, n);
      SliceOfSlice(Splice(buf, at, src), 0, at, p, n);
    } else {
      var e := at + |src|;
      SliceOfSlice(buf, e, |buf| - e, p - e, n);
      SliceOfSlice(Splice(buf, at, src), e, |buf| - e, p - e, n);
    }
  }

  // ---- a buffer written field after field ----

  function Concat(fs: seq<seq<byte>>): seq<byte>
  {
    if fs == [] then [] else Concat(fs[..|fs| - 1]) + fs[|fs| - 1]
  }

  /** Where field `i` starts. */
  function Off(fs: seq<seq<byte>>, i: nat): nat
    requires i <= |fs|
  {
    if i == 0 then 0 else Off(fs, i - 1) + |fs[i - 1]|
  }

  lemma {:induction false} OffPrefix(fs: seq<seq<byte>>, gs: seq<seq<byte>>, i: nat)
    requires i <= |fs| && i <= |gs|
    requires forall j :: 0 <= j < i ==> |fs[j]| == |gs[j]|
    ensures Off(fs, i) == Off(gs, i)
  {
    if i > 0 {
      OffPrefix(fs, gs, i - 1);
    }
  }

  lemma {:induction false} ConcatLength(fs: seq<seq<byte>>)
    ensures |Concat(fs)| == Off(fs, |fs|)
  {
    if fs != [] {
      var m := |fs| - 1;
      ConcatLength(fs[..m]);
      OffPrefix(fs, fs[..m], m);
    }
  }

  lemma {:induction false} ConcatAppend(fs: seq<seq<byte>>, gs: seq<seq<byte>>)
    ensures Concat(fs + gs) == Concat(fs) + Concat(gs)
  {
    if gs == [] {
      assert fs + gs == fs;
    } else {
      var m := |gs| - 1;
      ConcatAppend(fs, gs[..m]);
      assert (fs + gs)[..|fs| + m] == fs + gs[..m];
    }
  }

  lemma {:induction false} ConcatSplit(fs: seq<seq<byte>>, i: nat)
    requires i < |fs|
    ensures Concat(fs) == Concat(fs[..i]) + fs[i] + Concat(fs[i + 1..])
    ensures |Concat(fs[..i])| == Off(fs, i)
  {
    assert fs == fs[..i] + [fs[i]] + fs[i + 1..];
    ConcatAppend(fs[..i] + [fs[i]], fs[i + 1..]);
    ConcatAppend(fs[..i], [fs[i]]);
    assert Concat([fs[i]][..0]) == [];
    assert Concat([fs[i]]) == fs[i];
    ConcatLength(fs[..i]);
    OffPrefix(fs, fs[..i], i);
  }

  /** Reading a field back where it was written. */
  lemma {:induction false} FieldAt(fs: seq<seq<byte>>, i: nat)
    requires i < |fs|
    ensures Off(fs, i) + |fs[i]| <= |Concat(fs)|
    ensures Slice(Concat(fs), Off(fs, i), |fs[i]|) == fs[i]
  {
    ConcatSplit(fs, i);
  }

  lemma SpliceMiddle(a: seq<byte>, x: seq<byte>, b: seq<byte>, at: nat, src: seq<byte>)
    requires at + |src| <= |x|
    ensures Splice(a + x + b, |a| + at, src) == a + Splice(x, at, src) + b
  {
  }

  /** A copy that stays inside field `i` rewrites that field and no other. */
  lemma {:induction false} SpliceField(fs: seq<seq<byte>>, i: nat, at: nat, src: seq<byte>)
    requires i < |fs| && at + |src| <= |fs[i]|
    ensures Off(fs, i) + at + |src| <= |Concat(fs)|
    ensures Splice(Concat(fs), Off(fs, i) + at, src) == Concat(fs[i := Splice(fs[i], at, src)])
  {
    var x := Splice(fs[i], at, src);
    var a, b := Concat(fs[..i]), Concat(fs[i + 1..]);
    assert Concat(fs[i := x]) == a + x + b by {
      ConcatSplit(fs[i := x], i);
      assert fs[i := x][..i] == fs[..i] && fs[i := x][i + 1..] == fs[i + 1..];
    }
    assert Concat(fs) == a + fs[i] + b && |a| == Off(fs, i) by { ConcatSplit(fs, i); }
    SpliceMiddle(a, fs[i], b, at, src);
  }

  lemma {:induction false} OffUniform(fs: seq<seq<byte>>, w: nat, i: nat)
    requires i <= |fs|
    requires forall j :: 0 <= j < |fs| ==> |fs[j]| == w
    ensures Off(fs, i) == w * i
  {
    if i > 0 {
      OffUniform(fs, w, i - 1);
      assert w * (i - 1) + w == w * i;
    }
  }

  // ---- a struct of uint64_t fields ----

  function WordFields(ws: seq<nat>): (fs: seq<seq<byte>>)
    ensures |fs| == |ws| && forall i :: 0 <= i < |ws| ==> fs[i] == Word(ws[i])
  {
    seq(|ws|, i requires 0 <= i < |ws| => Word(ws[i]))
  }

  function Words(ws: seq<nat>): (s: seq<byte>)
    ensures |s| == WORD * |ws|
  {
    ConcatLength(WordFields(ws));
    OffUniform(WordFields(ws), WORD, |ws|);
    Concat(WordFields(ws))
  }

  lemma WordsAt(ws: seq<nat>, i: nat)
    requires i < |ws|
    ensures WORD * i + WORD <= WORD * |ws|
    ensures Slice(Words(ws), WORD * i, WORD) == Word(ws[i])
  {
    OffUniform(WordFields(ws), WORD, i);
    FieldAt(WordFields(ws), i);
  }
}
