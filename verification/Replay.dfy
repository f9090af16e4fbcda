/** Re-reading a log: what the cursor, the run-length counters and the flip back to recording do together. */
module Replay {
  import opened Bytes
  import opened LogModel

  /** What one read is answered with: a payload, or a slot that no completion has filled yet. */
  datatype Item = Data(flag: nat, payload: seq<byte>) | Hole(flag: nat, length: nat)

  function ItemAt(l: Log, i: nat): Item
    requires Valid(l) && i < |l.table|
  {
    if l.table[i].completed then Data(l.table[i].flag, Payload(l, i)) else Hole(l.table[i].flag, l.table[i].length)
  }

  function Repeat(x: Item, n: nat): (s: seq<Item>)
    ensures |s| == n && forall i :: 0 <= i < n ==> s[i] == x
  {
    seq(n, _ => x)
  }

  /** How often an entry is still to be read before the cursor passes it. */
  function Copies(e: Entry): (n: nat)
    requires Live(e)
    ensures n > 0
  {
    if e.isrepeated then e.counter - e.reexec else 1
  }

  /** The reads that lie ahead of entry `from`. */
  function Ahead(l: Log, from: nat): seq<Item>
    requires Valid(l) && from <= |l.table|
    decreases |l.table| - from
  {
    if from == |l.table| then []
    else Repeat(ItemAt(l, from), Copies(l.table[from])) + Ahead(l, from + 1)
  }

  function Remaining(l: Log): seq<Item>
    requires Valid(l)
  {
    Ahead(l, l.cursor)
  }

  ghost predicate Rewound(l: Log)
  {
    forall i :: 0 <= i < |l.table| ==> l.table[i].reexec == 0
  }

  function SumCounters(t: seq<Entry>): nat
  {
    if t == [] then 0 else t[0].counter + SumCounters(t[1..])
  }

  lemma {:induction false} AheadSame(l: Log, r: Log, from: nat)
    requires Valid(l) && Valid(r) && |l.table| == |r.table| && from <= |l.table|
    requires forall i :: from <= i < |l.table| ==>
               ItemAt(l, i) == ItemAt(r, i) && Copies(l.table[i]) == Copies(r.table[i])
    ensures Ahead(l, from) == Ahead(r, from)
    decreases |l.table| - from
  {
    if from < |l.table| {
      AheadSame(l, r, from + 1);
    }
  }

  /** A successful read is answered with the next item and leaves the others ahead. */
  lemma {:induction false} ReadStep(l: Log)
    requires Valid(l) && l.cursor < |l.table|
    ensures Valid(Advance(l)) && Remaining(l) != []
    ensures Remaining(l)[0] == ItemAt(l, l.cursor)
    ensures Remaining(Advance(l)) == Remaining(l)[1..]
  {
    hide Tiled, Payload;
    var r, c := Advance(l), l.cursor;
    AdvanceValid(l);
    AheadSame(l, r, c + 1);
    if r.cursor == c {
      assert ItemAt(r, c) == ItemAt(l, c);
      var n := Copies(l.table[c]);
      assert Repeat(ItemAt(l, c), n)[1..] == Repeat(ItemAt(l, c), n - 1);
    }
  }

  /** The state after `n` reads that ask for the recorded lengths. */
  function ReadTimes(l: Log, n: nat): Log
    requires Valid(l) && n <= |Remaining(l)|
    decreases n
  {
    if n == 0 then l
    else
      assert l.cursor < |l.table|;
      ReadStep(l);
      ReadTimes(Advance(l), n - 1)
  }

  /** From `l` to `r` the cursor moved on, rewinding what it passed; only that counter ever changes. */
  ghost predicate Passed(l: Log, r: Log)
  {
    && l.cursor <= r.cursor <= |l.table| == |r.table| && r.queue == l.queue && r.mode == l.mode
    && (forall i :: 0 <= i < |l.table| ==> r.table[i] == l.table[i].(reexec := r.table[i].reexec))
    && (forall i :: 0 <= i < l.cursor ==> r.table[i].reexec == l.table[i].reexec)
    && (forall i :: l.cursor <= i < r.cursor ==> r.table[i].reexec == 0)
  }

  lemma {:induction false} ReadTimesPassed(l: Log, n: nat)
    requires Valid(l) && n <= |Remaining(l)|
    ensures Passed(l, ReadTimes(l, n))
    decreases n
  {
    hide Tiled;
    if n > 0 {
      ReadStep(l);
      var m := Advance(l);
      ReadTimesPassed(m, n - 1);
      assert Live(l.table[l.cursor]);
      assert Passed(l, m);
    }
  }

  lemma {:induction false} ReadTimesAhead(l: Log, n: nat)
    requires Valid(l) && n <= |Remaining(l)|
    ensures
      var r := ReadTimes(l, n);
      && Valid(r) && |r.table| == |l.table|
      && Remaining(r) == Remaining(l)[n..]
      && (r.cursor == |r.table| <==> n == |Remaining(l)|)
    decreases n
  {
    hide Tiled;
    if n == 0 {
      if l.cursor < |l.table| {
        ReadStep(l);
      }
    } else {
      ReadStep(l);
      ReadTimesAhead(Advance(l), n - 1);
    }
  }

  lemma {:induction false} AheadLength(l: Log, from: nat)
    requires Valid(l) && from <= |l.table|
    ensures |Ahead(l, from)| <= SumCounters(l.table[from..])
    ensures |Ahead(l, from)| == SumCounters(l.table[from..])
        <==> forall i :: from <= i < |l.table| ==> l.table[i].reexec == 0
    decreases |l.table| - from
  {
    if from < |l.table| {
      AheadLength(l, from + 1);
      assert l.table[from..][1..] == l.table[from + 1..];
    }
  }

  /**
    Run-length replay. From ReInit on, every read is answered with the next recorded item until none is
    left; the read after that, and no earlier one, flips; by then every counter is back at 0.
    The number of reads is the sum of the entry counters exactly if all re-execution counters were 0,
    which ReInit itself does not see to.
   */
  lemma {:induction false} RunLengthReplay(l: Log, n: nat)
    requires Valid(l)
    requires n <= |Remaining(ReInit(l))|
    ensures
      var start := ReInit(l);
      var total := |Remaining(start)|;
      var r := ReadTimes(start, n);
      && Valid(r) && r.mode == ReplayLog && r.queue == l.queue && |r.table| == |l.table|
      && (r.cursor == |r.table| <==> n == total)
      && (n < total ==> Remaining(start)[n] == ItemAt(r, r.cursor))
      && (n == total ==> Rewound(r))
      && (total == SumCounters(l.table) <==> Rewound(l))
      && (Rewound(l) && n == total ==> r.table == l.table)
  {
    hide Tiled, Ahead;
    var start := ReInit(l);
    var r := ReadTimes(start, n);
    ReadTimesAhead(start, n);
    ReadTimesPassed(start, n);
    AheadLength(start, 0);
    assert start.table[0..] == l.table;
    if n < |Remaining(start)| {
      ReadStep(r);
    }
  }

  lemma {:induction false} SameSum(t: seq<Entry>, u: seq<Entry>)
    requires |t| == |u|
    requires forall i :: 0 <= i < |t| ==> t[i].counter == u[i].counter && t[i].isrepeated == u[i].isrepeated
    ensures SumCounters(t) == SumCounters(u)
  {
    if t != [] {
      SameSum(t[1..], u[1..]);
    }
  }

  /**
    A replay abandoned after `n` reads and started over: it again answers as many reads as were recorded
    exactly if it was not abandoned inside a repeated entry.
   */
  lemma {:induction false} AbandonedReplay(l: Log, n: nat)
    requires Valid(l) && Rewound(l) && n <= |Remaining(ReInit(l))|
    ensures
      var r := ReadTimes(ReInit(l), n);
      && Valid(r)
      && (|Remaining(ReInit(r))| == SumCounters(l.table)
          <==> r.cursor == |r.table| || r.table[r.cursor].reexec == 0)
  {
    hide Tiled, Ahead, Remaining;
    var r := ReadTimes(ReInit(l), n);
    RunLengthReplay(l, n);
    ReadTimesPassed(ReInit(l), n);
    RunLengthReplay(r, 0);
    SameSum(l.table, r.table);
    assert forall i :: r.cursor < i < |r.table| ==> r.table[i].reexec == 0 by { BeyondCursor(ReInit(l), n); }
  }

  /** Reading leaves the counters beyond the cursor alone. */
  lemma {:induction false} BeyondCursor(l: Log, n: nat)
    requires Valid(l) && n <= |Remaining(l)|
    ensures
      var r := ReadTimes(l, n);
      |r.table| == |l.table| && forall i :: r.cursor < i < |r.table| ==> r.table[i].reexec == l.table[i].reexec
    decreases n
  {
    hide Tiled;
    if n > 0 {
      ReadStep(l);
      BeyondCursor(Advance(l), n - 1);
      ReadTimesPassed(Advance(l), n - 1);
    }
  }

  /** An event, and twice the answer "not yet". */
  function Polled(): Log
  {
    var l := LogData(EMPTY, [], 0, true, 0, false, []);
    var m := LogData(l, Int(0), 0, true, 0, true, Int(0));
    LogData(m, Int(0), 0, true, 0, true, Int(0))
  }

  /** Abandoned after two of its three reads, this log answers only two the next time. */
  lemma {:induction false} LeftoverCounterShortensReplay()
    ensures
      var l := Polled();
      && Valid(l) && |Remaining(ReInit(l))| == SumCounters(l.table) == 3
      && var r := ReadTimes(ReInit(l), 2);
      Valid(r) && |Remaining(ReInit(r))| == 2
  {
    hide Int, Tiled, Polled, Remaining, SumCounters, ReadTimes, Advance;
    var e, f := Entry(0, 0, true, 0, 1, 0, false, 0), Entry(0, INT, true, 0, 2, 0, true, 0);
    PolledIs(e, f);
    PolledReads(Polled(), e, f);
    PolledTwice(ReInit(Polled()), e, f);
    PolledReads(ReadTimes(ReInit(Polled()), 2), e, f.(reexec := 1));
  }

  lemma {:induction false} PolledTwice(s: Log, e: Entry, f: Entry)
    requires Valid(s) && s.cursor == 0 && s.table == [e, f]
    requires !e.isrepeated && f.isrepeated && f.counter == 2 && f.reexec == 0
    requires |Remaining(s)| == 3
    ensures Valid(ReadTimes(s, 2)) && ReadTimes(s, 2).table == [e, f.(reexec := 1)]
  {
    hide Tiled, Remaining;
    ReadStep(s);
    var m := Advance(s);
    ReadStep(m);
    var r := Advance(m);
    assert m.cursor == 1 && m.table == [e, f];
    assert ReadTimes(r, 0) == r && ReadTimes(m, 1) == r && ReadTimes(s, 2) == r;
  }

  lemma {:induction false} PolledIs(e: Entry, f: Entry)
    requires e == Entry(0, 0, true, 0, 1, 0, false, 0) && f == Entry(0, INT, true, 0, 2, 0, true, 0)
    ensures Polled().table == [e, f] && Valid(Polled()) && Polled().cursor == 0
  {
    hide Int, Tiled;
    var l := LogData(EMPTY, [], 0, true, 0, false, []);
    assert Valid(EMPTY) by { EmptyIsValid(); }
    LogDataValid(EMPTY, [], 0, true, 0, false, []);
    LogDataValid(l, Int(0), 0, true, 0, true, Int(0));
    var m := LogData(l, Int(0), 0, true, 0, true, Int(0));
    LogDataValid(m, Int(0), 0, true, 0, true, Int(0));
    assert l.table == [e];
  }

  lemma EmptyIsValid()
    ensures Valid(EMPTY)
  {
  }

  lemma {:induction false} PolledReads(l: Log, e: Entry, f: Entry)
    requires Valid(l) && l.table == [e, f] && !e.isrepeated && e.counter == 1 && f.isrepeated && f.counter == 2
    requires e.reexec == 0
    ensures |Remaining(ReInit(l))| == 3 - f.reexec && SumCounters(l.table) == 3
  {
    hide Tiled;
    var s := ReInit(l);
    assert Ahead(s, 2) == [];
    assert |Ahead(s, 1)| == 2 - f.reexec;
    assert l.table[1..] == [f] && l.table[1..][1..] == [];
    assert SumCounters([f]) == 2;
  }

  lemma {:induction false} AheadSplit(l: Log, r: Log, from: nat, tail: seq<Item>)
    requires Valid(l) && Valid(r) && from <= |l.table| <= |r.table|
    requires forall i :: from <= i < |l.table| ==>
               ItemAt(l, i) == ItemAt(r, i) && Copies(l.table[i]) == Copies(r.table[i])
    requires Ahead(r, |l.table|) == tail
    ensures Ahead(r, from) == Ahead(l, from) + tail
    decreases |l.table| - from
  {
    if from < |l.table| {
      AheadSplit(l, r, from + 1, tail);
    }
  }

  lemma {:induction false} AheadLast(l: Log, r: Log, from: nat)
    requires Valid(l) && Valid(r) && from < |l.table| == |r.table|
    requires forall i :: from <= i < |l.table| ==> ItemAt(l, i) == ItemAt(r, i)
    requires forall i :: from <= i < |l.table| - 1 ==> Copies(l.table[i]) == Copies(r.table[i])
    requires Copies(r.table[|l.table| - 1]) == Copies(l.table[|l.table| - 1]) + 1
    ensures Ahead(r, from) == Ahead(l, from) + [ItemAt(l, |l.table| - 1)]
    decreases |l.table| - from
  {
    if from == |l.table| - 1 {
      var x, n := ItemAt(l, from), Copies(l.table[from]);
      assert Repeat(x, n + 1) == Repeat(x, n) + [x];
    } else {
      AheadLast(l, r, from + 1);
    }
  }

  /** The item LogData adds for the next replay: a merged record repeats the payload it was merged into. */
  function Logged(l: Log, data: seq<byte>, completed: bool, flag: nat, isrepeated: bool): Item
    requires Valid(l) && (isrepeated ==> l.table != [])
  {
    if isrepeated && FoundRepeated(l, |data|, completed, flag) then ItemAt(l, |l.table| - 1)
    else if completed then Data(flag, data)
    else Hole(flag, |data|)
  }

  /**
    Recording after a flip: the next replay is the old sequence followed by the new record. A record
    merged by the repeated-entry check comes back as logged exactly if its payload is that entry's.
   */
  lemma {:induction false} LogDataExtendsReplay(l: Log, data: seq<byte>, task: nat, completed: bool, flag: nat,
                                                isrepeated: bool, junk: seq<byte>)
    requires Valid(l) && Rewound(l) && |junk| == |data|
    requires isrepeated ==> l.table != []
    ensures
      var r := LogData(l, data, task, completed, flag, isrepeated, junk);
      && Valid(r) && Rewound(r)
      && Ahead(r, 0) == Ahead(l, 0) + [Logged(l, data, completed, flag, isrepeated)]
      && (completed ==>
            (Logged(l, data, completed, flag, isrepeated) == Data(flag, data)
             <==> !(isrepeated && FoundRepeated(l, |data|, completed, flag))
                  || Payload(l, |l.table| - 1) == data))
  {
    hide Tiled, Payload;
    var r := LogData(l, data, task, completed, flag, isrepeated, junk);
    LogDataAppends(l, data, task, completed, flag, isrepeated, junk);
    forall i | 0 <= i < |l.table|
      ensures ItemAt(r, i) == ItemAt(l, i)
    {
      assert RecordAt(l, i) == View(l)[i] && RecordAt(r, i) == View(r)[i];
    }
    if isrepeated && FoundRepeated(l, |data|, completed, flag) {
      AheadLast(l, r, 0);
    } else {
      var n := |l.table|;
      assert RecordAt(r, n) == View(r)[n];
      assert View(r)[n] == Record(if completed then data else junk, completed, flag, 1, 0, isrepeated, task);
      var x := if completed then Data(flag, data) else Hole(flag, |data|);
      assert ItemAt(r, n) == x && Copies(r.table[n]) == 1;
      assert Ahead(r, n + 1) == [] && Repeat(x, 1) == [x];
      AheadSplit(l, r, 0, [x]);
    }
  }
}
