/** cd::logging::CommLog: three growable buffers, updated in place. */
module CommLogs {
  import opened Bytes
  import opened LogModel
  import opened PackFormat

  /** memcpy(a + at, src, |src|) */
  method Memcpy(a: array<byte>, at: nat, src: seq<byte>)
    requires at + |src| <= a.Length
    modifies a
    ensures a[..] == Splice(old(a[..]), at, src)
  {
    forall i | 0 <= i < |src| {
      a[at + i] := src[i];
    }
    SpliceParts(old(a[..]), at, src);
    assert a[..][..at] == old(a[..])[..at];
    assert a[..][at..at + |src|] == src;
    assert a[..][at + |src|..] == old(a[..])[at + |src|..];
  }

  lemma SplicePrefix(s: seq<byte>, n: nat, at: nat, src: seq<byte>)
    requires at + |src| <= n <= |s|
    ensures Splice(s, at, src)[..n] == Splice(s[..n], at, src)
  {
  }

  lemma SpliceNothing(s: seq<byte>, at: nat)
    requires at <= |s|
    ensures Splice(s, at, []) == s
  {
  }

  lemma SpliceAtEnd(s: seq<byte>, n: nat, src: seq<byte>)
    requires n + |src| <= |s|
    ensures Splice(s, n, src)[..n + |src|] == s[..n] + src
  {
  }

  class CommLog {
    var mode: Mode
    var table: array<Entry>
    var tableCur: nat
    var queue: array<byte>
    var queueCur: nat
    var child: array?<byte>
    var childCur: nat
    var reexecPos: nat
    var generated: bool
    const queueUnit: nat
    const tableUnit: nat
    const childUnit: nat

    /** Cursors stay inside the allocations. */
    ghost predicate Shape()
      reads this
    {
      && tableCur <= table.Length
      && queueCur <= queue.Length
      && (if child == null then childCur == 0 else childCur <= child.Length && child != queue)
      && 0 < tableUnit && 0 < childUnit
    }

    ghost function Value(): Log
      reads this, table, queue, child
      requires Shape()
    {
      Log(mode, table[..tableCur], queue[..queueCur], if child == null then [] else child[..childCur],
          reexecPos, generated)
    }

    ghost predicate Valid()
      reads this, table, queue, child
    {
      Shape() && LogModel.Valid(Value())
    }

    /** The log with its allocation sizes, as PackLogs copies it. */
    ghost function Img(): Image
      reads this, table, queue, child
      requires Shape()
    {
      Image(table[..tableCur], table.Length, queue[..queueCur], queue.Length,
            if child == null then [] else child[..childCur], if child == null then 0 else child.Length)
    }

    /** A log made for replay allocates nothing yet. */
    constructor (mode: Mode, queueUnit: nat, tableUnit: nat, childUnit: nat)
      requires 0 < tableUnit && 0 < childUnit
      ensures Valid() && Value() == EMPTY.(mode := mode) && fresh(table) && fresh(queue) && child == null
      ensures if mode == GenerateLog then table.Length == tableUnit && queue.Length == queueUnit
              else table.Length == queue.Length == 0
    {
      this.queueUnit, this.tableUnit, this.childUnit := queueUnit, tableUnit, childUnit;
      this.mode, reexecPos, generated := mode, 0, false;
      tableCur, queueCur, childCur, child := 0, 0, 0, null;
      queue := new byte[if mode == GenerateLog then queueUnit else 0];
      table := new Entry[if mode == GenerateLog then tableUnit else 0];
    }

    /** Realloc: a log that found nothing to unpack starts with new buffers. */
    method Realloc()
      requires Shape()
      modifies this
      ensures Valid() && Value() == EMPTY.(mode := old(mode)) && fresh(table) && fresh(queue) && child == null
      ensures table.Length == tableUnit && queue.Length == queueUnit
    {
      hide LogModel.Valid;
      assert LogModel.Valid(EMPTY.(mode := mode)) by { EmptyValid(mode); }
      reexecPos, generated := 0, false;
      tableCur, queueCur, childCur, child := 0, 0, 0, null;
      queue := new byte[queueUnit];
      table := new Entry[tableUnit];
    }

    static lemma EmptyValid(mode: Mode)
      ensures LogModel.Valid(EMPTY.(mode := mode))
    {
    }

    // ---- growth ----

    /** IncreaseLogTableSize */
    method IncreaseTable()
      requires Shape()
      modifies `table
      ensures Shape() && fresh(table)
      ensures table.Length == 2 * old(table.Length)
      ensures Value() == old(Value())
    {
      var bigger := new Entry[table.Length * 2];
      forall i | 0 <= i < table.Length {
        bigger[i] := table[i];
      }
      table := bigger;
    }

    /** IncreaseLogQueueSize; the size check before it makes the error return unreachable from WriteQueue. */
    method IncreaseQueue(length: nat) returns (err: Err)
      requires Shape()
      modifies `queue
      ensures Shape() && Value() == old(Value())
      ensures err == (if (queueCur + length) * 2 <= old(queue.Length) then Aborted else OK)
      ensures if err == OK then fresh(queue) && queue.Length == (queueCur + length) * 2 else queue == old(queue)
    {
      var required := (queueCur + length) * 2;
      if required <= queue.Length {
        return Aborted;
      }
      var bigger := new byte[required];
      forall i | 0 <= i < queue.Length && i < required {
        bigger[i] := queue[i];
      }
      queue := bigger;
      return OK;
    }

    // ---- LogData ----

    /** The table must have been allocated: doubling makes no room in an empty one. */
    method WriteTable(task: nat, length: nat, completed: bool, flag: nat, isrepeated: bool)
      requires Shape() && 0 < table.Length
      modifies this`table, this`tableCur, table
      ensures Shape() && 0 < table.Length && (table == old(table) || fresh(table))
      ensures Value() == old(Value()).(table := old(Value()).table
                           + [Entry(queueCur, length, completed, flag, 1, 0, isrepeated, task)])
    {
      if tableCur >= table.Length {
        IncreaseTable();
      }
      table[tableCur] := Entry(queueCur, length, completed, flag, 1, 0, isrepeated, task);
      tableCur := tableCur + 1;
    }

    method WriteQueue(data: seq<byte>, completed: bool) returns (ghost junk: seq<byte>)
      requires Shape()
      modifies this`queue, this`queueCur, queue
      ensures Shape() && (queue == old(queue) || fresh(queue))
      ensures |junk| == |data|
      ensures Value() == old(Value()).(queue := old(Value()).queue + if completed then data else junk)
    {
      if queueCur + |data| > queue.Length {
        var err := IncreaseQueue(|data|);
        assert err == OK;
      }
      junk := FillQueue(data, completed);
    }

    /** Past the room check: the copy, if there is anything to copy yet, and the cursor. */
    method FillQueue(data: seq<byte>, completed: bool) returns (ghost junk: seq<byte>)
      requires Shape() && queueCur + |data| <= queue.Length
      modifies this`queueCur, queue
      ensures Shape() && |junk| == |data| && queueCur == old(queueCur) + |data|
      ensures queue[..queueCur] == old(queue[..queueCur]) + if completed then data else junk
      ensures child != null ==> child[..childCur] == old(child[..childCur])
    {
      hide Splice;
      if completed && |data| != 0 {
        SpliceAtEnd(queue[..], queueCur, data);
        Memcpy(queue, queueCur, data);
        assert queue[..queueCur + |data|] == queue[..][..queueCur + |data|];
      }
      junk := queue[queueCur..queueCur + |data|];
      queueCur := queueCur + |data|;
    }

    /** FoundRepeatedEntry: a repeated record like the last one only bumps that one's counter. */
    method FoundRepeatedEntry(length: nat, completed: bool, flag: nat) returns (found: bool)
      requires Shape() && tableCur > 0
      modifies table
      ensures found == FoundRepeated(old(Value()), length, completed, flag)
      ensures
        var v, last := old(Value()), tableCur - 1;
        Value() ==
          if found then v.(table := v.table[last := v.table[last].(counter := v.table[last].counter + 1)]) else v
    {
      var e := table[tableCur - 1];
      found := Matches(e, length, completed, flag);
      if found {
        table[tableCur - 1] := e.(counter := e.counter + 1);
      }
    }

    method LogData(data: seq<byte>, task: nat, completed: bool, flag: nat, isrepeated: bool)
      returns (ghost junk: seq<byte>)
      requires Valid() && 0 < table.Length
      requires isrepeated ==> tableCur > 0
      modifies this, table, queue
      ensures Valid() && 0 < table.Length && |junk| == |data|
      ensures table == old(table) || fresh(table)
      ensures queue == old(queue) || fresh(queue)
      ensures child == old(child)
      ensures Value() == LogModel.LogData(old(Value()), data, task, completed, flag, isrepeated, junk)
    {
      hide LogModel.Valid, FoundRepeated;
      ghost var v := Value();
      junk := data;
      if isrepeated {
        var found := FoundRepeatedEntry(|data|, completed, flag);
        if found {
          LogDataValid(v, data, task, completed, flag, isrepeated, junk);
          return;
        }
      }
      WriteTable(task, |data|, completed, flag, isrepeated);
      if |data| != 0 {
        junk := WriteQueue(data, completed);
      }
      generated := true;
      LogDataValid(v, data, task, completed, flag, isrepeated, junk);
      assert v.queue + [] == v.queue;
    }

    // ---- late completion ----

    method ProbeAndLogData(data: seq<byte>, flag: nat) returns (found: bool)
      requires Valid() && LengthAgrees(Value().table, flag, |data|)
      modifies table, queue
      ensures Valid()
      ensures found == (FirstFlag(old(Value()).table, flag) < tableCur)
      ensures Value() == ProbeAndLog(old(Value()), data, flag)
    {
      hide Tiled, Splice;
      ghost var v := Value();
      ProbeAndLogFillsOne(v, data, flag);
      found := false;
      var pos := 0;
      while pos < tableCur
        invariant pos <= FirstFlag(v.table, flag)
        invariant Shape() && Value() == v && !found
      {
        if table[pos].flag == flag {
          ghost var i := FirstFlag(v.table, flag);
          assert i == pos;
          TiledBounds(v.table, |v.queue|, i);
          table[pos] := table[pos].(completed := true);
          SpliceNothing(queue[..queueCur], table[pos].pos);
          if |data| != 0 {
            SplicePrefix(queue[..], queueCur, table[pos].pos, data);
            Memcpy(queue, table[pos].pos, data);
            assert queue[..queueCur] == queue[..][..queueCur];
          }
          found := true;
          assert Value() == ProbeAndLog(v, data, flag);
          return;
        }
        pos := pos + 1;
      }
    }

    // ---- replay ----

    method ReInit()
      requires Valid()
      modifies `mode, `reexecPos
      ensures Valid() && Value() == LogModel.ReInit(old(Value()))
    {
      mode := ReplayLog;
      reexecPos := 0;
    }

    method Reset()
      requires Valid()
      modifies this
      ensures Valid() && Value() == EMPTY
      ensures table == old(table) && queue == old(queue) && child == old(child)
    {
      tableCur, queueCur, childCur, reexecPos := 0, 0, 0, 0;
      generated := false;
      mode := GenerateLog;
    }

    method Step()
      requires Valid() && reexecPos < tableCur
      modifies `reexecPos, table
      ensures Valid() && Value() == Advance(old(Value()))
    {
      hide Tiled;
      AdvanceValid(Value());
      ghost var v := Value();
      var e := table[reexecPos];
      if e.isrepeated {
        table[reexecPos] := e.(reexec := e.reexec + 1);
        if table[reexecPos].reexec == e.counter {
          table[reexecPos] := table[reexecPos].(reexec := 0);
          reexecPos := reexecPos + 1;
        }
      } else {
        reexecPos := reexecPos + 1;
      }
      assert Value() == Advance(v);
    }

    method ReadData(length: nat) returns (err: Err, data: seq<byte>)
      requires Valid()
      modifies `mode, `reexecPos, table
      ensures Valid()
      ensures err == Check(old(Value()), length, Missing)
      ensures Value() == After(old(Value()), err)
      ensures data == if err == OK then Payload(old(Value()), old(reexecPos)) else []
    {
      data := [];
      if reexecPos == tableCur {
        mode := GenerateLog;
        return ModeFlip, [];
      }
      if length != table[reexecPos].length {
        return Aborted, [];
      }
      if !table[reexecPos].completed {
        return Missing, [];
      }
      TiledBounds(Value().table, queueCur, reexecPos);
      data := queue[table[reexecPos].pos..table[reexecPos].pos + table[reexecPos].length];
      assert data == Payload(Value(), reexecPos);
      Step();
      err := OK;
    }

    method ProbeData(length: nat) returns (err: Err)
      requires Valid()
      modifies `mode, `reexecPos, table
      ensures Valid()
      ensures err == Check(old(Value()), length, Error)
      ensures Value() == After(old(Value()), err)
    {
      if reexecPos == tableCur {
        mode := GenerateLog;
        return ModeFlip;
      }
      if length != table[reexecPos].length {
        return Aborted;
      }
      if !table[reexecPos].completed {
        return Error;
      }
      Step();
      err := OK;
    }

    // ---- packing into the parent ----

    /** Leaves room beyond the cursor for `length` more bytes, and one to spare. */
    method CheckChildLogAlloc(length: nat)
      requires Shape()
      modifies `child, `childCur
      ensures Shape() && Value() == old(Value())
      ensures child != null && childCur + length < child.Length
      ensures child == old(child) || fresh(child)
    {
      if child == null {
        RoundUp(length, childUnit);
        child := new byte[(length / childUnit + 1) * childUnit];
        childCur := 0;
      } else if childCur + length >= child.Length {
        RoundUp(childCur + length, childUnit);
        var bigger := new byte[((childCur + length) / childUnit + 1) * childUnit];
        forall i | 0 <= i < childCur {
          bigger[i] := child[i];
        }
        child := bigger;
      }
    }

    static lemma RoundUp(x: nat, unit: nat)
      requires 0 < unit
      ensures x < (x / unit + 1) * unit
    {
      assert x == x / unit * unit + x % unit;
    }

    /** One of PackLogs's copies: field `k` of the record goes behind the fields before it. */
    method Append(src: seq<byte>, ghost before: seq<byte>, ghost fs: seq<seq<byte>>, ghost k: nat)
      requires Shape() && child != null && childCur + |src| <= child.Length
      requires k < |fs| && src == fs[k] && child[..childCur] == before + Concat(fs[..k])
      modifies `childCur, child
      ensures Shape() && childCur == old(childCur) + |src|
      ensures child[..childCur] == before + Concat(fs[..k + 1])
    {
      hide Splice;
      SpliceAtEnd(child[..], childCur, src);
      Memcpy(child, childCur, src);
      assert child[..childCur + |src|] == child[..][..childCur + |src|];
      childCur := childCur + |src|;
      assert fs[..k + 1][..k] == fs[..k];
      assert before + (Concat(fs[..k]) + fs[k]) == before + Concat(fs[..k]) + fs[k];
    }

    /** PackAndPushLogs: the parent's child buffer grows by exactly this log's record. */
    method PackAndPush(parent: CommLog, id: CDID, ptrs: Ptrs)
      requires Shape() && parent.Shape() && parent != this
      requires queue != parent.child && (child != null ==> child != parent.child)
      requires queue != parent.queue && (child != null ==> child != parent.queue)
      modifies parent`child, parent`childCur, parent.child
      ensures Shape() && Value() == old(Value())
      ensures parent.Shape()
      ensures parent.child == old(parent.child) || fresh(parent.child)
      ensures parent.Value() == old(parent.Value()).(child := old(parent.Value()).child + Pack(Packed(id, Img(), ptrs)))
    {
      var length := WORD + CDID_SIZE + META_SIZE + ENTRY_SIZE * tableCur
                    + META_SIZE + queueCur + META_SIZE + childCur;
      parent.CheckChildLogAlloc(length);
      PackLogs(parent, id, ptrs, length);
    }

    method PackLogs(dst: CommLog, id: CDID, ptrs: Ptrs, length: nat)
      requires Shape() && dst.Shape() && dst != this
      requires length == PackedLength(Img())
      requires dst.child != null && dst.childCur + length <= dst.child.Length
      requires queue != dst.child && child != dst.child
      modifies dst`childCur, dst.child
      ensures Shape() && dst.Shape() && Value() == old(Value())
      ensures dst.childCur == old(dst.childCur) + length
      ensures dst.Value() == old(dst.Value()).(child := old(dst.Value()).child + Pack(Packed(id, Img(), ptrs)))
    {
      var nested, childSize := [], 0;
      if child != null {
        nested, childSize := child[..childCur], child.Length;
      }
      var img := Image(table[..tableCur], table.Length, queue[..queueCur], queue.Length, nested, childSize);
      dst.AppendRecord(Packed(id, img, ptrs));
    }

    /** The eight copies, in the order of the pack format. */
    method AppendRecord(r: Packed)
      requires Shape() && child != null && childCur + PackedLength(r.img) <= child.Length
      modifies `childCur, child
      ensures Shape() && childCur == old(childCur) + PackedLength(r.img)
      ensures child[..childCur] == old(child[..childCur]) + Pack(r)
    {
      var fs := Fields(r);
      assert Pack(r) == Concat(fs) && Concat(fs[..0]) == [] && fs[..8] == fs;
      ConcatLength(fs);
      hide Fields, Concat;
      ghost var b := child[..childCur];
      var k := 0;
      while k < |fs|
        invariant 0 <= k <= |fs|
        invariant Shape() && childCur == |b| + Off(fs, k)
        invariant child[..childCur] == b + Concat(fs[..k])
      {
        FieldAt(fs, k);
        Append(fs[k], b, fs, k);
        k := k + 1;
      }
    }

    // ---- finding and unpacking ----

    /** FindChildLogs: the first packed record of that CD. */
    method FindChildLogs(id: CDID, ghost rs: seq<Packed>) returns (err: Err, at: nat)
      requires Shape() && Value().child == PackAll(rs)
      requires forall i :: 0 <= i < |rs| ==> FitsPacked(rs[i])
      ensures err == (if FirstId(rs, id) == |rs| then ChildLogNotFound else OK)
      ensures err == OK ==> at == RecordOff(rs, FirstId(rs, id)) && at < childCur
      ensures
        var k := FirstId(rs, id);
        && (err == OK ==> rs[k].id.(head := 0, domain := 0, objectId := 0)
                           == id.(head := 0, domain := 0, objectId := 0))
        && (forall j :: 0 <= j < k ==> rs[j].id.(head := 0, domain := 0, objectId := 0)
                                        != id.(head := 0, domain := 0, objectId := 0))
    {
      hide Dec, Slice, Word, Words, Concat, Pack, PackedLength, DecId, FirstId, SameCD, FitsPacked, PackAll;
      FirstIdFields(rs, id);
      at := 0;
      ghost var k := 0;
      if rs != [] {
        RecordBounds(rs, 0);
      }
      RecordsEnd(rs);
      while at < childCur
        invariant k <= FirstId(rs, id) <= |rs|
        invariant at == RecordOff(rs, k)
        invariant childCur == |PackAll(rs)| == RecordOff(rs, |rs|)
        decreases |rs| - k
      {
        var buf := child[..childCur];
        assert k < |rs|;
        RecordBounds(rs, k);
        HeaderBack(buf, at, rs[k]);
        if SameCD(DecId(Slice(buf, at + WORD, CDID_SIZE)), id) {
          break;
        }
        assert k < FirstId(rs, id);
        at := at + WordAt(buf, at);
        k := k + 1;
      }
      if at >= childCur {
        RecordsBeyond(rs, k);
        return ChildLogNotFound, at;
      }
      err := OK;
    }

    /** Every record has a header, so a cursor at the end has passed all of them. */
    static lemma {:induction false} RecordsBeyond(rs: seq<Packed>, k: nat)
      requires k <= |rs| && RecordOff(rs, k) >= |PackAll(rs)|
      ensures k == |rs|
    {
      if k < |rs| {
        RecordBounds(rs, k);
      }
    }

    /** UnpackLogs: everything but the mode, the replay cursor and the generated flag is replaced. */
    method UnpackLogs(src: array<byte>, at: nat, mine: CDID) returns (err: Err)
      requires Shape() && Unpack(src[..], at).Some?
      requires
        var img := Unpack(src[..], at).value.img;
        |img.table| <= img.tableCap && |img.queue| <= img.queueCap && |img.child| <= img.childCap
      modifies this
      ensures Shape() && mode == old(mode) && reexecPos == old(reexecPos) && generated == old(generated)
      ensures
        var u := Unpack(src[..], at).value;
        var same := u.id.(head := 0, domain := 0, objectId := 0) == mine.(head := 0, domain := 0, objectId := 0);
        && err == (if same && u.index == u.length then OK else Aborted)
        && (if same then Img() == u.img && fresh(table) && fresh(queue) && fresh(child)
            else unchanged(this))
    {
      hide Dec, Slice, DecId, SameCD, DecTable;
      var buf := src[..];
      ghost var u := Unpack(buf, at).value;
      var length := WordAt(buf, at);
      SameButThree(u.id, mine);
      if !SameCD(DecId(Slice(buf, at + WORD, CDID_SIZE)), mine) {
        return Aborted;
      }
      var index := at + TABLE_META_AT;
      index := UnpackTable(buf, index);
      index := UnpackQueue(buf, index);
      index := UnpackChild(buf, index);
      assert src[..] == buf && index == at + u.index && length == u.length;
      if index - at != length {
        return Aborted;
      }
      return OK;
    }

    method UnpackTable(buf: seq<byte>, at: nat) returns (index: nat)
      requires at + META_SIZE <= |buf| && at + META_SIZE + ENTRY_SIZE * WordAt(buf, at + WORD) <= |buf|
      requires WordAt(buf, at + WORD) <= WordAt(buf, at + 2 * WORD)
      modifies `table, `tableCur
      ensures fresh(table) && table.Length == WordAt(buf, at + 2 * WORD) && tableCur == WordAt(buf, at + WORD)
      ensures table[..tableCur] == DecTable(buf, at + META_SIZE, tableCur)
      ensures index == at + META_SIZE + ENTRY_SIZE * tableCur
    {
      hide Dec, Slice, DecTable;
      tableCur := WordAt(buf, at + WORD);
      var entries := DecTable(buf, at + META_SIZE, tableCur);
      table := new Entry[WordAt(buf, at + 2 * WORD)];
      forall i | 0 <= i < tableCur {
        table[i] := entries[i];
      }
      index := at + META_SIZE + ENTRY_SIZE * tableCur;
    }

    method UnpackQueue(buf: seq<byte>, at: nat) returns (index: nat)
      requires at + META_SIZE <= |buf| && at + META_SIZE + WordAt(buf, at + WORD) <= |buf|
      requires WordAt(buf, at + WORD) <= WordAt(buf, at + 2 * WORD)
      modifies `queue, `queueCur
      ensures fresh(queue) && queue.Length == WordAt(buf, at + 2 * WORD) && queueCur == WordAt(buf, at + WORD)
      ensures queue[..queueCur] == Slice(buf, at + META_SIZE, queueCur)
      ensures index == at + META_SIZE + queueCur
    {
      hide Dec, Slice;
      queueCur := WordAt(buf, at + WORD);
      queue := CopyOut(buf, at + META_SIZE, queueCur, WordAt(buf, at + 2 * WORD));
      index := at + META_SIZE + queueCur;
    }

    method UnpackChild(buf: seq<byte>, at: nat) returns (index: nat)
      requires at + META_SIZE <= |buf| && at + META_SIZE + WordAt(buf, at + 2 * WORD) <= |buf|
      requires WordAt(buf, at + 2 * WORD) <= WordAt(buf, at + WORD)
      modifies `child, `childCur
      ensures child != null && fresh(child) && child.Length == WordAt(buf, at + WORD)
      ensures childCur == WordAt(buf, at + 2 * WORD)
      ensures child[..childCur] == Slice(buf, at + META_SIZE, childCur)
      ensures index == at + META_SIZE + childCur
    {
      hide Dec, Slice;
      childCur := WordAt(buf, at + 2 * WORD);
      child := CopyOut(buf, at + META_SIZE, childCur, WordAt(buf, at + WORD));
      index := at + META_SIZE + childCur;
    }

    /** A new buffer of `size` bytes that starts with the `n` bytes at `at`. */
    static method CopyOut(buf: seq<byte>, at: nat, n: nat, size: nat) returns (a: array<byte>)
      requires at + n <= |buf| && n <= size
      ensures fresh(a) && a.Length == size && a[..n] == Slice(buf, at, n)
    {
      a := new byte[size];
      forall i | 0 <= i < n {
        a[i] := buf[at + i];
      }
    }

    // ---- late completion inside a packed record ----

    method ProbeAndLogDataPacked(data: seq<byte>, flag: nat, ghost rs: seq<Packed>) returns (found: bool)
      requires Shape() && Value().child == PackAll(rs)
      requires Patchable(rs, data, flag) && forall i :: 0 <= i < |rs| ==> FitsPacked(rs[i])
      modifies child
      ensures Shape()
      ensures found == (FirstRecord(rs, flag) < |rs|)
      ensures Value() == old(Value()).(child := PackAll(PatchRecords(rs, data, flag)))
    {
      hide Dec, Slice, Splice, Concat, Pack, PackedLength, FirstRecord, FirstFlag, FitsPacked, DecTable, PackAll;
      hide LogModel.Valid, LengthAgrees, PatchRecords, CompleteImage;
      var index := 0;
      ghost var k := 0;
      RecordsEnd(rs);
      while index < childCur
        invariant k <= FirstRecord(rs, flag) <= |rs|
        invariant index == RecordOff(rs, k)
        invariant Shape() && Value() == old(Value())
        decreases |rs| - k
      {
        var length, n, i := ScanRecord(index, flag, rs, k);
        if i < n {
          PatchCommutesWithPacking(rs, data, flag);
          var pos := DecTable(child[..childCur], index + TABLE_AT, n)[i].pos;
          Patch(index, n, i, pos, data);
          return true;
        }
        index := index + length;
        k := k + 1;
      }
      RecordsBeyond(rs, k);
      assert PatchRecords(rs, data, flag) == rs by { NothingToPatch(rs, data, flag); }
      found := false;
    }

    static lemma {:induction false} RecordsEnd(rs: seq<Packed>)
      ensures |PackAll(rs)| == RecordOff(rs, |rs|)
    {
      ConcatLength(Packs(rs));
    }

    static lemma {:induction false} NothingToPatch(rs: seq<Packed>, data: seq<byte>, flag: nat)
      requires Patchable(rs, data, flag) && FirstRecord(rs, flag) == |rs|
      ensures PatchRecords(rs, data, flag) == rs
    {
    }

    /** The payload and the completed_ byte of entry `i` of the record at `index`. */
    method Patch(index: nat, n: nat, i: nat, pos: nat, data: seq<byte>)
      requires Shape() && child != null && i < n && index + QueueAt(n) + pos + |data| <= childCur
      modifies child
      ensures child[..childCur] == PatchAt(old(child[..childCur]), index, n, i, pos, data)
    {
      hide Splice;
      SplicePrefix(child[..], childCur, index + QueueAt(n) + pos, data);
      Memcpy(child, index + QueueAt(n) + pos, data);
      assert child[..childCur] == child[..][..childCur];
      var at := index + TABLE_AT + ENTRY_SIZE * i + COMPLETED_AT;
      SplicePrefix(child[..], childCur, at, [1]);
      Memcpy(child, at, [1]);
      assert child[..childCur] == child[..][..childCur];
    }

    /** Looks through the entries of the packed record at `index`. */
    method ScanRecord(index: nat, flag: nat, ghost rs: seq<Packed>, ghost k: nat)
      returns (length: nat, n: nat, i: nat)
      requires Shape() && Value().child == PackAll(rs) && k <= |rs| && index == RecordOff(rs, k) && index < childCur
      requires forall j :: 0 <= j < |rs| ==> FitsPacked(rs[j])
      ensures k < |rs| && RecordOff(rs, k + 1) == index + length <= childCur
      ensures n == |rs[k].img.table| && i == FirstFlag(rs[k].img.table, flag)
      ensures child != null && index + QueueMetaAt(n) <= childCur
      ensures DecTable(child[..childCur], index + TABLE_AT, n) == rs[k].img.table
    {
      hide Dec, Slice, Concat, Pack, FirstFlag, DecEntry, PackedLength, FitsPacked;
      RecordsEnd(rs);
      RecordBounds(rs, k);
      var buf := child[..childCur];
      HeaderBack(buf, index, rs[k]);
      TableBack(buf, index, rs[k]);
      ghost var t := rs[k].img.table;
      length := WordAt(buf, index);
      n := WordAt(buf, index + TABLE_META_AT + WORD);
      i := 0;
      while i < n
        invariant i <= FirstFlag(t, flag) <= n == |t|
      {
        assert DecTable(buf, index + TABLE_AT, n)[i] == t[i];
        if DecEntry(Slice(buf, index + TABLE_AT + ENTRY_SIZE * i, ENTRY_SIZE)).flag == flag {
          return;
        }
        i := i + 1;
      }
    }
  }
}
