/**
  The packed form of a finished child's log, [SIZE][CDID][Table][Queue][ChildLogQueue], as it lies in
  the parent's child buffer; a child buffer is itself part of the record, so records nest.
 */
module PackFormat {
  import opened Bytes
  import opened LogModel

  datatype CDID = CDID(level: nat, phase: nat, rank: nat, siblings: nat,
                       color: nat, task: nat, tasks: nat, head: nat,
                       domain: nat, objectId: nat, sequential: nat)

  /** CDID::operator==, with NodeID's and CDNameT's: head, domain and object do not take part. */
  predicate SameCD(a: CDID, b: CDID)
  {
    && a.color == b.color && a.task == b.task && a.tasks == b.tasks
    && a.level == b.level && a.phase == b.phase && a.rank == b.rank && a.siblings == b.siblings
    && a.sequential == b.sequential
  }

  /** Two IDs are told apart by any field but those three. */
  lemma {:induction false} SameButThree(a: CDID, b: CDID)
    ensures SameCD(a, b) <==> a.(head := 0, domain := 0, objectId := 0) == b.(head := 0, domain := 0, objectId := 0)
  {
  }

  /** A log with the sizes of its three allocations. */
  datatype Image = Image(table: seq<Entry>, tableCap: nat, queue: seq<byte>, queueCap: nat,
                         child: seq<byte>, childCap: nat)

  const CDID_SIZE := 88    // eleven words
  const META_SIZE := 24    // struct LogTable, LogQueue, ChildLogQueue
  const ENTRY_SIZE := 56   // struct LogTableElement
  const COMPLETED_AT := 16 // offset of completed_ in it

  ghost predicate FitsEntry(e: Entry)
  {
    e.pos < U64 && e.length < U64 && e.flag < U64 && e.counter < U64 && e.reexec < U64 && e.task < U32
  }

  ghost predicate FitsId(id: CDID)
  {
    && id.level < U64 && id.phase < U64 && id.rank < U64 && id.siblings < U64 && id.color < U64
    && id.task < U64 && id.tasks < U64 && id.head < U64 && id.domain < U64 && id.objectId < U64
    && id.sequential < U64
  }

  /** Every number of the log is representable, as it is when it sits in a uint64_t. */
  ghost predicate Fits(img: Image)
  {
    && (forall i :: 0 <= i < |img.table| ==> FitsEntry(img.table[i]))
    && |img.table| <= img.tableCap < U64 && |img.queue| <= img.queueCap < U64
    && |img.child| <= img.childCap < U64
    && PackedLength(img) < U64
  }

  // ---- structs ----

  function Bit(b: bool): nat { if b then 1 else 0 }

  function EntryWords(e: Entry): seq<nat>
  {
    [e.pos, e.length, Bit(e.completed), e.flag, e.counter, e.reexec, Bit(e.isrepeated) + e.task * U32]
  }

  function EncEntry(e: Entry): (s: seq<byte>)
    ensures |s| == ENTRY_SIZE
  {
    Words(EntryWords(e))
  }

  function WordAt(buf: seq<byte>, at: nat): nat
    requires at + WORD <= |buf|
  {
    Dec(Slice(buf, at, WORD))
  }

  function DecEntry(s: seq<byte>): Entry
    requires |s| == ENTRY_SIZE
  {
    Entry(WordAt(s, 0), WordAt(s, 8), WordAt(s, COMPLETED_AT) % 256 != 0, WordAt(s, 24), WordAt(s, 32),
          WordAt(s, 40), WordAt(s, 48) % 256 != 0, WordAt(s, 48) / U32)
  }

  lemma {:induction false} WordBack(ws: seq<nat>, i: nat)
    requires i < |ws| && ws[i] < U64
    ensures WordAt(Words(ws), WORD * i) == ws[i]
  {
    WordsAt(ws, i);
  }

  lemma {:induction false} DecEncEntry(e: Entry)
    requires FitsEntry(e)
    ensures DecEntry(EncEntry(e)) == e
  {
    hide Dec, Slice, Words, Word, WordAt;
    var ws := EntryWords(e);
    assert forall i :: 0 <= i < 7 ==> ws[i] < U64;
    forall i | 0 <= i < 7
      ensures WordAt(Words(ws), WORD * i) == ws[i]
    {
      WordBack(ws, i);
    }
    assert WordAt(Words(ws), WORD * 0) == e.pos && WordAt(Words(ws), WORD * 1) == e.length;
    assert WordAt(Words(ws), WORD * 2) == Bit(e.completed) && WordAt(Words(ws), WORD * 3) == e.flag;
    assert WordAt(Words(ws), WORD * 4) == e.counter && WordAt(Words(ws), WORD * 5) == e.reexec;
    assert WordAt(Words(ws), WORD * 6) == Bit(e.isrepeated) + e.task * U32;
    MixedWord(e.isrepeated, e.task);
    MixedWord(e.completed, 0);
  }

  lemma MixedWord(b: bool, task: nat)
    ensures (Bit(b) + task * U32) / U32 == task && (Bit(b) + task * U32) % 256 == Bit(b)
  {
    var x := Bit(b) + task * 0x1_0000_0000;
    assert x == Bit(b) + 256 * (0x100_0000 * task);
  }

  /** struct LogTableElement: where each field lies, in bytes. */
  lemma {:induction false} EntryLayout(e: Entry)
    requires FitsEntry(e)
    ensures
      var s := EncEntry(e);
      && |s| == 56
      && WordAt(s, 0) == e.pos && WordAt(s, 8) == e.length && WordAt(s, 24) == e.flag && WordAt(s, 32) == e.counter
      && WordAt(s, 40) == e.reexec
      && WordAt(s, 16) == (if e.completed then 1 else 0)
      && WordAt(s, 48) == (if e.isrepeated then 1 else 0) + e.task * 0x1_0000_0000
  {
    hide Dec, Slice, Words, Word, WordAt;
    var ws := EntryWords(e);
    forall i | 0 <= i < 7
      ensures ws[i] < U64 && WordAt(Words(ws), WORD * i) == ws[i]
    {
      WordBack(ws, i);
    }
    assert WordAt(Words(ws), WORD * 0) == ws[0] && WordAt(Words(ws), WORD * 1) == ws[1];
    assert WordAt(Words(ws), WORD * 2) == ws[2] && WordAt(Words(ws), WORD * 3) == ws[3];
    assert WordAt(Words(ws), WORD * 4) == ws[4] && WordAt(Words(ws), WORD * 5) == ws[5];
    assert WordAt(Words(ws), WORD * 6) == ws[6];
  }

  lemma {:induction false} BitWord(b: bool)
    ensures Splice(Word(Bit(b)), 0, [1]) == Word(1)
  {
    var w := Word(Bit(b));
    assert Bit(b) / 256 == 0 && w == [Bit(b)] + Enc(0, 7);
    assert Word(1) == [1] + Enc(0, 7);
    assert w[1..] == Enc(0, 7);
  }

  /** Storing `true` into the completed_ byte of a packed entry. */
  lemma {:induction false} CompleteInPlace(e: Entry)
    ensures Splice(EncEntry(e), COMPLETED_AT, [1]) == EncEntry(e.(completed := true))
  {
    hide Splice, Slice, Word, WordFields, Concat, Dec, Enc, Off;
    var ws := EntryWords(e);
    var fs := WordFields(ws);
    BitWord(e.completed);
    SpliceField(fs, 2, 0, [1]);
    OffUniform(fs, WORD, 2);
    assert EntryWords(e.(completed := true)) == ws[2 := 1];
    assert fs[2 := Word(1)] == WordFields(ws[2 := 1]);
  }

  function IdWords(id: CDID): (ws: seq<nat>)
    ensures |ws| == 11
  {
    [id.level, id.phase, id.rank, id.siblings, id.color, id.task, id.tasks, id.head,
     id.domain, id.objectId, id.sequential]
  }

  function DecId(s: seq<byte>): CDID
    requires |s| == CDID_SIZE
  {
    CDID(WordAt(s, 0), WordAt(s, 8), WordAt(s, 16), WordAt(s, 24), WordAt(s, 32), WordAt(s, 40),
         WordAt(s, 48), WordAt(s, 56), WordAt(s, 64), WordAt(s, 72), WordAt(s, 80))
  }

  lemma {:induction false} DecEncId(id: CDID)
    requires FitsId(id)
    ensures |Words(IdWords(id))| == CDID_SIZE && DecId(Words(IdWords(id))) == id
  {
    hide Dec, Slice, Words, Word, WordAt;
    var ws := IdWords(id);
    assert forall i :: 0 <= i < 11 ==> ws[i] < U64;
    forall i | 0 <= i < 11
      ensures WordAt(Words(ws), WORD * i) == ws[i]
    {
      WordBack(ws, i);
    }
    assert WordAt(Words(ws), WORD * 0) == id.level && WordAt(Words(ws), WORD * 1) == id.phase;
    assert WordAt(Words(ws), WORD * 2) == id.rank && WordAt(Words(ws), WORD * 3) == id.siblings;
    assert WordAt(Words(ws), WORD * 4) == id.color && WordAt(Words(ws), WORD * 5) == id.task;
    assert WordAt(Words(ws), WORD * 6) == id.tasks && WordAt(Words(ws), WORD * 7) == id.head;
    assert WordAt(Words(ws), WORD * 8) == id.domain && WordAt(Words(ws), WORD * 9) == id.objectId;
    assert WordAt(Words(ws), WORD * 10) == id.sequential;
  }

  function TableFields(t: seq<Entry>): (fs: seq<seq<byte>>)
    ensures |fs| == |t| && forall i :: 0 <= i < |t| ==> fs[i] == EncEntry(t[i])
  {
    seq(|t|, i requires 0 <= i < |t| => EncEntry(t[i]))
  }

  function EncTable(t: seq<Entry>): (s: seq<byte>)
    ensures |s| == ENTRY_SIZE * |t|
  {
    ConcatLength(TableFields(t));
    OffUniform(TableFields(t), ENTRY_SIZE, |t|);
    Concat(TableFields(t))
  }

  function DecTable(buf: seq<byte>, at: nat, n: nat): (t: seq<Entry>)
    requires at + ENTRY_SIZE * n <= |buf|
    ensures |t| == n
    ensures forall i :: 0 <= i < n ==> t[i] == DecEntry(Slice(buf, at + ENTRY_SIZE * i, ENTRY_SIZE))
  {
    seq(n, i requires 0 <= i < n => DecEntry(Slice(buf, at + ENTRY_SIZE * i, ENTRY_SIZE)))
  }

  lemma {:induction false} EncTableAt(t: seq<Entry>, i: nat)
    requires i < |t|
    ensures Slice(EncTable(t), ENTRY_SIZE * i, ENTRY_SIZE) == EncEntry(t[i])
  {
    OffUniform(TableFields(t), ENTRY_SIZE, i);
    FieldAt(TableFields(t), i);
  }

  lemma {:induction false} DecEncTable(buf: seq<byte>, at: nat, t: seq<Entry>)
    requires forall i :: 0 <= i < |t| ==> FitsEntry(t[i])
    requires at + ENTRY_SIZE * |t| <= |buf|
    requires Slice(buf, at, ENTRY_SIZE * |t|) == EncTable(t)
    ensures DecTable(buf, at, |t|) == t
  {
    forall i | 0 <= i < |t|
      ensures DecEntry(Slice(buf, at + ENTRY_SIZE * i, ENTRY_SIZE)) == t[i]
    {
      EncTableAt(t, i);
      SliceOfSlice(buf, at, ENTRY_SIZE * |t|, ENTRY_SIZE * i, ENTRY_SIZE);
      DecEncEntry(t[i]);
    }
  }

  // ---- one record ----

  function PackedLength(img: Image): nat
  {
    WORD + CDID_SIZE
    + META_SIZE + ENTRY_SIZE * |img.table|
    + META_SIZE + |img.queue|
    + META_SIZE + |img.child|
  }

  /** The three buffer addresses that the meta data carries along; unpacking overwrites them. */
  datatype Ptrs = Ptrs(table: nat, queue: nat, child: nat)

  datatype Packed = Packed(id: CDID, img: Image, ptrs: Ptrs)

  ghost predicate FitsPacked(r: Packed)
  {
    FitsId(r.id) && Fits(r.img)
  }

  /** In the order of CommLog::PackLogs; ChildLogQueue keeps its size before its cursor. */
  function Fields(r: Packed): (fs: seq<seq<byte>>)
    ensures |fs| == 8
  {
    [ Word(PackedLength(r.img)),
      Words(IdWords(r.id)),
      Words([r.ptrs.table, |r.img.table|, r.img.tableCap]),
      EncTable(r.img.table),
      Words([r.ptrs.queue, |r.img.queue|, r.img.queueCap]),
      r.img.queue,
      Words([r.ptrs.child, r.img.childCap, |r.img.child|]),
      r.img.child ]
  }

  const TABLE_META_AT := WORD + CDID_SIZE
  const TABLE_AT := TABLE_META_AT + META_SIZE
  function QueueMetaAt(n: nat): nat { TABLE_AT + ENTRY_SIZE * n }
  function QueueAt(n: nat): nat { QueueMetaAt(n) + META_SIZE }

  lemma {:induction false} FieldOffsets(r: Packed)
    ensures
      var fs := Fields(r);
      && Off(fs, 0) == 0 && Off(fs, 1) == WORD && Off(fs, 2) == TABLE_META_AT
      && Off(fs, 3) == TABLE_AT && Off(fs, 4) == QueueMetaAt(|r.img.table|)
      && Off(fs, 5) == QueueAt(|r.img.table|)
      && Off(fs, 6) == QueueAt(|r.img.table|) + |r.img.queue|
      && Off(fs, 7) == QueueAt(|r.img.table|) + |r.img.queue| + META_SIZE
      && Off(fs, 8) == PackedLength(r.img)
  {
    var fs := Fields(r);
    assert Off(fs, 1) == WORD;
    assert Off(fs, 2) == TABLE_META_AT;
    assert Off(fs, 3) == TABLE_AT;
    assert Off(fs, 4) == QueueMetaAt(|r.img.table|);
    assert Off(fs, 5) == QueueAt(|r.img.table|);
    assert Off(fs, 6) == QueueAt(|r.img.table|) + |r.img.queue|;
    assert Off(fs, 7) == QueueAt(|r.img.table|) + |r.img.queue| + META_SIZE;
  }

  function Pack(r: Packed): (s: seq<byte>)
    ensures |s| == PackedLength(r.img)
  {
    ConcatLength(Fields(r));
    FieldOffsets(r);
    Concat(Fields(r))
  }

  /** What CommLog::UnpackLogs takes out of memory, with the final value of its running index. */
  datatype Unpacked = Unpacked(length: nat, id: CDID, img: Image, index: nat)

  /** Unpacking, cut short where the code would read outside the buffer. */
  function Unpack(buf: seq<byte>, at: nat): Option<Unpacked>
  {
    if at + TABLE_AT > |buf| then None
    else
      var length := WordAt(buf, at);
      var id := DecId(Slice(buf, at + WORD, CDID_SIZE));
      var n := WordAt(buf, at + TABLE_META_AT + WORD);
      var tableCap := WordAt(buf, at + TABLE_META_AT + 2 * WORD);
      var q := at + QueueMetaAt(n);
      if q + META_SIZE > |buf| then None
      else
        var table := DecTable(buf, at + TABLE_AT, n);
        var m := WordAt(buf, q + WORD);
        var queueCap := WordAt(buf, q + 2 * WORD);
        var c := q + META_SIZE + m;
        if c + META_SIZE > |buf| then None
        else
          var queue := Slice(buf, q + META_SIZE, m);
          var childCap := WordAt(buf, c + WORD);
          var k := WordAt(buf, c + 2 * WORD);
          if c + META_SIZE + k > |buf| then None
          else
            Some(Unpacked(length, id,
                          Image(table, tableCap, queue, queueCap, Slice(buf, c + META_SIZE, k), childCap),
                          c + META_SIZE + k - at))
  }

  /** A field of a record found at `at`. */
  lemma {:induction false} PackedFieldAt(buf: seq<byte>, at: nat, r: Packed, i: nat)
    requires at + PackedLength(r.img) <= |buf| && Slice(buf, at, PackedLength(r.img)) == Pack(r)
    requires i < 8
    ensures Off(Fields(r), i) + |Fields(r)[i]| <= PackedLength(r.img)
    ensures Slice(buf, at + Off(Fields(r), i), |Fields(r)[i]|) == Fields(r)[i]
  {
    FieldAt(Fields(r), i);
    SliceOfSlice(buf, at, PackedLength(r.img), Off(Fields(r), i), |Fields(r)[i]|);
  }

  lemma {:induction false} PackedMetaAt(buf: seq<byte>, at: nat, r: Packed, i: nat, ws: seq<nat>, j: nat)
    requires at + PackedLength(r.img) <= |buf| && Slice(buf, at, PackedLength(r.img)) == Pack(r)
    requires i < 8 && Fields(r)[i] == Words(ws) && j < |ws| && ws[j] < U64
    ensures Off(Fields(r), i) + WORD * j + WORD <= PackedLength(r.img)
    ensures WordAt(buf, at + Off(Fields(r), i) + WORD * j) == ws[j]
  {
    hide Dec, Words, Word, Concat, Fields, Off, Slice, Pack;
    PackedFieldAt(buf, at, r, i);
    WordBack(ws, j);
    SliceOfSlice(buf, at + Off(Fields(r), i), WORD * |ws|, WORD * j, WORD);
  }

  /** The record [SIZE][CDID][Table][Queue][ChildLogQueue]: where each number and each buffer lies. */
  lemma {:induction false} RecordLayout(r: Packed)
    requires FitsPacked(r) && r.ptrs.table < U64 && r.ptrs.queue < U64 && r.ptrs.child < U64
    ensures
      var p, t, q, c := Pack(r), 56 * |r.img.table|, |r.img.queue|, |r.img.child|;
      && |p| == 8 + 88 + 24 + t + 24 + q + 24 + c
      && WordAt(p, 0) == |p| && DecId(Slice(p, 8, 88)) == r.id
      && WordAt(p, 96) == r.ptrs.table && WordAt(p, 104) == |r.img.table| && WordAt(p, 112) == r.img.tableCap
      && Slice(p, 120, t) == EncTable(r.img.table)
      && WordAt(p, 120 + t) == r.ptrs.queue && WordAt(p, 128 + t) == q && WordAt(p, 136 + t) == r.img.queueCap
      && Slice(p, 144 + t, q) == r.img.queue
      && WordAt(p, 144 + t + q) == r.ptrs.child && WordAt(p, 152 + t + q) == r.img.childCap
      && WordAt(p, 160 + t + q) == c && Slice(p, 168 + t + q, c) == r.img.child
  {
    hide Dec, Word, Words, Concat, Pack, EncTable, DecId, WordAt, Slice, Fields, Off;
    assert |Pack(r)| == 8 + 88 + 24 + 56 * |r.img.table| + 24 + |r.img.queue| + 24 + |r.img.child|;
    HeadLayout(r);
    QueueLayout(r);
    ChildLayout(r);
  }

  lemma WholeRecord(r: Packed)
    ensures Slice(Pack(r), 0, PackedLength(r.img)) == Pack(r)
  {
  }

  lemma {:induction false} HeadLayout(r: Packed)
    requires FitsPacked(r) && r.ptrs.table < U64
    ensures
      var p, t := Pack(r), 56 * |r.img.table|;
      && |p| >= 120 + t && WordAt(p, 0) == |p| && DecId(Slice(p, 8, 88)) == r.id
      && WordAt(p, 96) == r.ptrs.table && WordAt(p, 104) == |r.img.table| && WordAt(p, 112) == r.img.tableCap
      && Slice(p, 120, t) == EncTable(r.img.table)
  {
    hide Dec, Word, Words, Concat, Pack, EncTable, DecId, WordAt, Slice, Fields;
    WholeRecord(r);
    FieldOffsets(r);
    HeaderBack(Pack(r), 0, r);
    MetaFields(r);
    MetaLayout(Pack(r), r, 2, [r.ptrs.table, |r.img.table|, r.img.tableCap]);
    BufferLayout(Pack(r), r, 3, EncTable(r.img.table));
  }

  lemma {:induction false} QueueLayout(r: Packed)
    requires FitsPacked(r) && r.ptrs.queue < U64
    ensures
      var p, t, q := Pack(r), 56 * |r.img.table|, |r.img.queue|;
      && |p| >= 144 + t + q
      && WordAt(p, 120 + t) == r.ptrs.queue && WordAt(p, 128 + t) == q && WordAt(p, 136 + t) == r.img.queueCap
      && Slice(p, 144 + t, q) == r.img.queue
  {
    hide Dec, Word, Words, Concat, Pack, EncTable, DecId, WordAt, Slice, Fields;
    WholeRecord(r);
    FieldOffsets(r);
    MetaFields(r);
    MetaLayout(Pack(r), r, 4, [r.ptrs.queue, |r.img.queue|, r.img.queueCap]);
    BufferLayout(Pack(r), r, 5, r.img.queue);
  }

  lemma {:induction false} ChildLayout(r: Packed)
    requires FitsPacked(r) && r.ptrs.child < U64
    ensures
      var p, at, c := Pack(r), 144 + 56 * |r.img.table| + |r.img.queue|, |r.img.child|;
      && |p| >= at + 24 + c
      && WordAt(p, at) == r.ptrs.child && WordAt(p, at + 8) == r.img.childCap && WordAt(p, at + 16) == c
      && Slice(p, at + 24, c) == r.img.child
  {
    hide Dec, Word, Words, Concat, Pack, EncTable, DecId, WordAt, Slice, Fields;
    WholeRecord(r);
    FieldOffsets(r);
    MetaFields(r);
    MetaLayout(Pack(r), r, 6, [r.ptrs.child, r.img.childCap, |r.img.child|]);
    BufferLayout(Pack(r), r, 7, r.img.child);
  }

  lemma MetaFields(r: Packed)
    ensures
      var fs := Fields(r);
      && fs[2] == Words([r.ptrs.table, |r.img.table|, r.img.tableCap]) && fs[3] == EncTable(r.img.table)
      && fs[4] == Words([r.ptrs.queue, |r.img.queue|, r.img.queueCap]) && fs[5] == r.img.queue
      && fs[6] == Words([r.ptrs.child, r.img.childCap, |r.img.child|]) && fs[7] == r.img.child
      && |EncTable(r.img.table)| == 56 * |r.img.table|
  {
  }

  lemma {:induction false} BufferLayout(p: seq<byte>, r: Packed, i: nat, s: seq<byte>)
    requires PackedLength(r.img) <= |p| && Slice(p, 0, PackedLength(r.img)) == Pack(r)
    requires i < 8 && Fields(r)[i] == s
    ensures Off(Fields(r), i) + |s| <= |p| && Slice(p, Off(Fields(r), i), |s|) == s
  {
    hide Dec, Words, Word, Concat, Fields, Off, Slice, Pack;
    PackedFieldAt(p, 0, r, i);
  }

  lemma {:induction false} MetaLayout(p: seq<byte>, r: Packed, i: nat, ws: seq<nat>)
    requires PackedLength(r.img) <= |p| && Slice(p, 0, PackedLength(r.img)) == Pack(r)
    requires i < 8 && |ws| == 3 && Fields(r)[i] == Words(ws) && ws[0] < U64 && ws[1] < U64 && ws[2] < U64
    ensures
      var at := Off(Fields(r), i);
      at + 24 <= |p| && WordAt(p, at) == ws[0] && WordAt(p, at + 8) == ws[1] && WordAt(p, at + 16) == ws[2]
  {
    hide Dec, Words, Word, Concat, Fields, Off, Slice, Pack;
    PackedMetaAt(p, 0, r, i, ws, 0);
    PackedMetaAt(p, 0, r, i, ws, 1);
    PackedMetaAt(p, 0, r, i, ws, 2);
  }

  /** SIZE and CDID, all that FindChildLogs looks at. */
  lemma {:induction false} HeaderBack(buf: seq<byte>, at: nat, r: Packed)
    requires FitsPacked(r)
    requires at + PackedLength(r.img) <= |buf| && Slice(buf, at, PackedLength(r.img)) == Pack(r)
    ensures at + TABLE_AT <= |buf|
    ensures WordAt(buf, at) == PackedLength(r.img)
    ensures DecId(Slice(buf, at + WORD, CDID_SIZE)) == r.id
  {
    hide Dec, Words, Word, Concat, Off, Slice, Pack, DecId, IdWords, EncTable;
    FieldOffsets(r);
    PackedFieldAt(buf, at, r, 0);
    PackedFieldAt(buf, at, r, 1);
    DecEncId(r.id);
  }

  /** The table of a packed record, entry by entry. */
  lemma {:induction false} TableBack(buf: seq<byte>, at: nat, r: Packed)
    requires FitsPacked(r)
    requires at + PackedLength(r.img) <= |buf| && Slice(buf, at, PackedLength(r.img)) == Pack(r)
    ensures WordAt(buf, at + TABLE_META_AT + WORD) == |r.img.table|
    ensures at + QueueMetaAt(|r.img.table|) <= |buf|
    ensures DecTable(buf, at + TABLE_AT, |r.img.table|) == r.img.table
  {
    hide Dec, Slice, Word, Words, Concat, Pack, EncTable, DecTable, EntryWords;
    FieldOffsets(r);
    PackedMetaAt(buf, at, r, 2, [r.ptrs.table, |r.img.table|, r.img.tableCap], 1);
    PackedFieldAt(buf, at, r, 3);
    DecEncTable(buf, at + TABLE_AT, r.img.table);
  }

  /** Unpacking what was packed: every buffer and size comes back, and the index ends at SIZE. */
  lemma {:induction false} UnpackPack(buf: seq<byte>, at: nat, r: Packed)
    requires FitsPacked(r)
    requires at + PackedLength(r.img) <= |buf| && Slice(buf, at, PackedLength(r.img)) == Pack(r)
    ensures Unpack(buf, at) == Some(Unpacked(PackedLength(r.img), r.id, r.img, PackedLength(r.img)))
  {
    hide Dec, Slice, Word, Words, Concat, Pack, EncTable, DecTable, DecId, IdWords, EntryWords;
    var img := r.img;
    FieldOffsets(r);
    HeaderBack(buf, at, r);
    PackedMetaAt(buf, at, r, 2, [r.ptrs.table, |img.table|, img.tableCap], 1);
    PackedMetaAt(buf, at, r, 2, [r.ptrs.table, |img.table|, img.tableCap], 2);
    PackedFieldAt(buf, at, r, 3);
    DecEncTable(buf, at + TABLE_AT, img.table);
    PackedMetaAt(buf, at, r, 4, [r.ptrs.queue, |img.queue|, img.queueCap], 1);
    PackedMetaAt(buf, at, r, 4, [r.ptrs.queue, |img.queue|, img.queueCap], 2);
    PackedFieldAt(buf, at, r, 5);
    PackedMetaAt(buf, at, r, 6, [r.ptrs.child, img.childCap, |img.child|], 1);
    PackedMetaAt(buf, at, r, 6, [r.ptrs.child, img.childCap, |img.child|], 2);
    PackedFieldAt(buf, at, r, 7);
  }

  // ---- a child buffer: records one after the other ----

  function Packs(rs: seq<Packed>): (fs: seq<seq<byte>>)
    ensures |fs| == |rs| && forall i :: 0 <= i < |rs| ==> fs[i] == Pack(rs[i])
  {
    seq(|rs|, i requires 0 <= i < |rs| => Pack(rs[i]))
  }

  function PackAll(rs: seq<Packed>): seq<byte>
  {
    Concat(Packs(rs))
  }

  function RecordOff(rs: seq<Packed>, i: nat): nat
    requires i <= |rs|
  {
    Off(Packs(rs), i)
  }

  lemma {:induction false} PackAllAppend(rs: seq<Packed>, r: Packed)
    ensures PackAll(rs + [r]) == PackAll(rs) + Pack(r)
  {
    hide Pack;
    assert Packs(rs + [r]) == Packs(rs) + [Pack(r)];
    assert (Packs(rs) + [Pack(r)])[..|rs|] == Packs(rs);
  }

  lemma {:induction false} RecordBounds(rs: seq<Packed>, i: nat)
    requires i < |rs|
    ensures RecordOff(rs, i) + PackedLength(rs[i].img) == RecordOff(rs, i + 1) <= |PackAll(rs)|
    ensures Slice(PackAll(rs), RecordOff(rs, i), PackedLength(rs[i].img)) == Pack(rs[i])
    ensures |PackAll(rs)| == RecordOff(rs, |rs|)
  {
    hide Pack, Concat, Slice;
    FieldAt(Packs(rs), i);
    ConcatLength(Packs(rs));
  }

  /** Where that CD first occurs, or |ids|. */
  function FirstSame(ids: seq<CDID>, id: CDID): (k: nat)
    ensures k <= |ids|
    ensures k < |ids| ==> SameCD(ids[k], id)
    ensures forall j :: 0 <= j < k ==> !SameCD(ids[j], id)
  {
    if ids == [] then 0
    else if SameCD(ids[0], id) then 0
    else 1 + FirstSame(ids[1..], id)
  }

  /** The first record of that CD, or |rs|. */
  function FirstId(rs: seq<Packed>, id: CDID): (k: nat)
    ensures k <= |rs|
    ensures k < |rs| ==> SameCD(rs[k].id, id)
    ensures forall j :: 0 <= j < k ==> !SameCD(rs[j].id, id)
  {
    var ids := seq(|rs|, i requires 0 <= i < |rs| => rs[i].id);
    assert forall j :: 0 <= j < |rs| ==> ids[j] == rs[j].id;
    FirstSame(ids, id)
  }

  /** The walk of CommLog::FindChildLogs; None also where it would leave the buffer or stand still. */
  function Find(buf: seq<byte>, at: nat, id: CDID): Option<nat>
    decreases |buf| - at
  {
    if at >= |buf| || at + TABLE_META_AT > |buf| then None
    else if SameCD(DecId(Slice(buf, at + WORD, CDID_SIZE)), id) then Some(at)
    else if WordAt(buf, at) == 0 then None
    else Find(buf, at + WordAt(buf, at), id)
  }

  lemma {:induction false} FirstIdFields(rs: seq<Packed>, id: CDID)
    ensures
      var k := FirstId(rs, id);
      && k <= |rs| && (k < |rs| ==> rs[k].id.(head := 0, domain := 0, objectId := 0)
                                     == id.(head := 0, domain := 0, objectId := 0))
      && (forall j :: 0 <= j < k ==> rs[j].id.(head := 0, domain := 0, objectId := 0)
                                      != id.(head := 0, domain := 0, objectId := 0))
  {
    hide SameCD, FirstId;
    forall j | 0 <= j < |rs|
      ensures SameCD(rs[j].id, id) <==> rs[j].id.(head := 0, domain := 0, objectId := 0)
                                         == id.(head := 0, domain := 0, objectId := 0)
    {
      SameButThree(rs[j].id, id);
    }
  }

  /** The walk stops at the first record of that CD, and finds nothing exactly if there is none. */
  lemma {:induction false} FindFirst(rs: seq<Packed>, from: nat, id: CDID)
    requires forall i :: 0 <= i < |rs| ==> FitsPacked(rs[i])
    requires from <= FirstId(rs, id)
    ensures
      var k := FirstId(rs, id);
      && Find(PackAll(rs), RecordOff(rs, from), id) == (if k == |rs| then None else Some(RecordOff(rs, k)))
      && k <= |rs| && (k < |rs| ==> rs[k].id.(head := 0, domain := 0, objectId := 0)
                                     == id.(head := 0, domain := 0, objectId := 0))
      && (forall j :: 0 <= j < k ==> rs[j].id.(head := 0, domain := 0, objectId := 0)
                                      != id.(head := 0, domain := 0, objectId := 0))
    decreases |rs| - from
  {
    hide Dec, Slice, Word, Words, Concat, Pack, PackedLength, DecId, FirstId, SameCD;
    var buf := PackAll(rs);
    FirstIdFields(rs, id);
    if from == |rs| {
      ConcatLength(Packs(rs));
    } else {
      RecordBounds(rs, from);
      HeaderBack(buf, RecordOff(rs, from), rs[from]);
      if from < FirstId(rs, id) {
        FindFirst(rs, from + 1, id);
      }
    }
  }

  /** A record is never found for an ID that differs in level, label, place in the tree or sequence number. */
  lemma {:induction false} OtherCDNotFound(r: Packed, id: CDID)
    requires FitsPacked(r)
    requires || r.id.level != id.level || r.id.phase != id.phase || r.id.rank != id.rank || r.id.siblings != id.siblings
             || r.id.color != id.color || r.id.task != id.task || r.id.tasks != id.tasks
             || r.id.sequential != id.sequential
    ensures Find(PackAll([r]), 0, id) == None
  {
    hide Find, PackAll, FitsPacked, FirstId;
    var rs := [r];
    assert rs[0] == r;
    FindFirst(rs, 0, id);
  }

  /** And always for one that differs in head, domain or object only. */
  lemma {:induction false} HeadNotCompared(r: Packed, id: CDID)
    requires FitsPacked(r) && id == r.id.(head := id.head, domain := id.domain, objectId := id.objectId)
    ensures Find(PackAll([r]), 0, id) == Some(0)
  {
    hide Find, PackAll, FitsPacked, FirstId;
    var rs := [r];
    assert rs[0] == r && RecordOff(rs, 0) == 0;
    FindFirst(rs, 0, id);
  }

  lemma FirstRecordOff(rs: seq<Packed>)
    ensures RecordOff(rs, 0) == 0
  {
  }

  /** Two children that differ in their label only: each finds its own record. */
  lemma {:induction false} LabelsKeepApart(r: Packed, s: Packed)
    requires FitsPacked(r) && FitsPacked(s) && s.id == r.id.(phase := s.id.phase) && r.id.phase != s.id.phase
    ensures Find(PackAll([r, s]), 0, r.id) == Some(0)
    ensures Find(PackAll([r, s]), 0, s.id) == Some(PackedLength(r.img))
    ensures Extract(PackAll([r, s]), s.id) == Some(Unpacked(PackedLength(s.img), s.id, s.img, PackedLength(s.img)))
  {
    hide Find, PackAll, FitsPacked, FirstId, PackedLength, Extract, Pack, Slice, SameCD, Concat, RecordOff;
    var rs := [r, s];
    assert rs[0] == r && rs[1] == s;
    assert RecordOff(rs, 0) == 0 by { FirstRecordOff(rs); }
    FindFirst(rs, 0, r.id);
    FindFirst(rs, 0, s.id);
    ExtractPacked(rs, s.id);
    RecordBounds(rs, 0);
  }

  /** CommLog::UnpackLogsToChildCD: find the child's record, then unpack it. */
  function Extract(buf: seq<byte>, id: CDID): Option<Unpacked>
  {
    match Find(buf, 0, id)
    case None => None
    case Some(at) => Unpack(buf, at)
  }

  lemma {:induction false} ExtractPacked(rs: seq<Packed>, id: CDID)
    requires forall i :: 0 <= i < |rs| ==> FitsPacked(rs[i])
    ensures
      var k := FirstId(rs, id);
      Extract(PackAll(rs), id) ==
        if k == |rs| then None
        else Some(Unpacked(PackedLength(rs[k].img), rs[k].id, rs[k].img, PackedLength(rs[k].img)))
  {
    FindFirst(rs, 0, id);
    var k := FirstId(rs, id);
    if k < |rs| {
      RecordBounds(rs, k);
      UnpackPack(PackAll(rs), RecordOff(rs, k), rs[k]);
    }
  }

  lemma {:induction false} FirstIdPush(rs: seq<Packed>, r: Packed)
    ensures FirstId(rs + [r], r.id) == FirstId(rs, r.id)
  {
    hide FirstId;
    var all := rs + [r];
    assert SameCD(all[|rs|].id, r.id);
    assert forall i :: 0 <= i < |rs| ==> all[i] == rs[i];
  }

  /** What unpacking the record gives. */
  function Contents(r: Packed): Unpacked
  {
    Unpacked(PackedLength(r.img), r.id, r.img, PackedLength(r.img))
  }

  /** A record is found again exactly if it is the first under its ID, or the first one says the same. */
  lemma {:induction false} LastRecordFound(rs: seq<Packed>, r: Packed)
    requires FitsPacked(r) && forall i :: 0 <= i < |rs| ==> FitsPacked(rs[i])
    ensures
      var k := FirstId(rs, r.id);
      && (k < |rs| ==> Extract(PackAll(rs + [r]), r.id) == Extract(PackAll(rs), r.id) == Some(Contents(rs[k])))
      && (Extract(PackAll(rs + [r]), r.id) == Some(Contents(r)) <==>
            k == |rs| || (rs[k].id == r.id && rs[k].img == r.img))
  {
    hide Extract, PackAll, FitsPacked, FirstId, SameCD, PackedLength;
    var all := rs + [r];
    assert forall i :: 0 <= i < |rs| ==> all[i] == rs[i];
    ExtractPacked(rs, r.id);
    ExtractPacked(all, r.id);
    FirstIdPush(rs, r);
  }

  // ---- records inside records ----

  /** A log whose children, and theirs in turn, have packed themselves into it. */
  datatype Tree = Tree(id: CDID, ptrs: Ptrs, table: seq<Entry>, tableCap: nat,
                       queue: seq<byte>, queueCap: nat, childCap: nat, kids: seq<Tree>)

  function KidRecords(t: Tree): (rs: seq<Packed>)
    ensures |rs| == |t.kids|
    ensures forall i :: 0 <= i < |rs| ==> rs[i].id == t.kids[i].id
    decreases t, 0
  {
    seq(|t.kids|, i requires 0 <= i < |t.kids| => Packed(t.kids[i].id, ImageOf(t.kids[i]), t.kids[i].ptrs))
  }

  function ImageOf(t: Tree): Image
    decreases t, 1
  {
    Image(t.table, t.tableCap, t.queue, t.queueCap, PackAll(KidRecords(t)), t.childCap)
  }

  ghost predicate FitsTree(t: Tree)
  {
    FitsId(t.id) && Fits(ImageOf(t)) && forall i :: 0 <= i < |t.kids| ==> FitsTree(t.kids[i])
  }

  /** The first child under that ID, or |kids|. */
  function FirstTree(kids: seq<Tree>, id: CDID): (k: nat)
    ensures k <= |kids|
    ensures k < |kids| ==> SameCD(kids[k].id, id)
    ensures forall j :: 0 <= j < k ==> !SameCD(kids[j].id, id)
  {
    var ids := seq(|kids|, i requires 0 <= i < |kids| => kids[i].id);
    assert forall j :: 0 <= j < |kids| ==> ids[j] == kids[j].id;
    FirstSame(ids, id)
  }

  predicate InTree(t: Tree, path: seq<nat>)
    decreases |path|
  {
    path == [] || (path[0] < |t.kids| && InTree(t.kids[path[0]], path[1..]))
  }

  function Subtree(t: Tree, path: seq<nat>): Tree
    requires InTree(t, path)
    decreases |path|
  {
    if path == [] then t else Subtree(t.kids[path[0]], path[1..])
  }

  /** Re-creating the CDs along a path, each one pulling its log out of its parent's. */
  function Descend(img: Image, ids: seq<CDID>): Option<Image>
    decreases |ids|
  {
    if ids == [] then Some(img)
    else
      match Extract(img.child, ids[0])
      case None => None
      case Some(u) => if u.index == u.length then Descend(u.img, ids[1..]) else None
  }

  function Ids(t: Tree, path: seq<nat>): (ids: seq<CDID>)
    requires InTree(t, path)
    ensures |ids| == |path|
    decreases |path|
  {
    if path == [] then [] else [t.kids[path[0]].id] + Ids(t.kids[path[0]], path[1..])
  }

  /** The same on trees: at each step the first child under the ID. */
  function Follow(t: Tree, ids: seq<CDID>): Option<Tree>
    decreases |ids|
  {
    if ids == [] then Some(t)
    else
      var k := FirstTree(t.kids, ids[0]);
      if k == |t.kids| then None else Follow(t.kids[k], ids[1..])
  }

  /** Whatever the depth, unpacking top-down rebuilds exactly the logs that were packed bottom-up. */
  lemma {:induction false} DescendFollows(t: Tree, ids: seq<CDID>)
    requires FitsTree(t)
    ensures Descend(ImageOf(t), ids) == match Follow(t, ids) case None => None case Some(u) => Some(ImageOf(u))
    decreases |ids|
  {
    hide Extract, PackAll, Fits, FirstId, FirstTree, SameCD;
    if ids != [] {
      var rs := KidRecords(t);
      forall i | 0 <= i < |rs|
        ensures FitsPacked(rs[i])
      {
        assert FitsTree(t.kids[i]);
      }
      ExtractPacked(rs, ids[0]);
      assert FirstId(rs, ids[0]) == FirstTree(t.kids, ids[0]);
      if FirstTree(t.kids, ids[0]) < |t.kids| {
        DescendFollows(t.kids[FirstTree(t.kids, ids[0])], ids[1..]);
      }
    }
  }

  /** On the path every log is the first under its ID, or the first one says the same. */
  predicate Unhidden(t: Tree, path: seq<nat>)
    requires InTree(t, path)
    decreases |path|
  {
    path == [] ||
    var kid := t.kids[path[0]];
    ImageOf(t.kids[FirstTree(t.kids, kid.id)]) == ImageOf(kid) && Unhidden(kid, path[1..])
  }

  /** So each log comes back exactly if the one that is followed to says the same; if it is not hidden it does. */
  lemma {:induction false} NestedRoundTrip(t: Tree, path: seq<nat>)
    requires FitsTree(t) && InTree(t, path)
    ensures
      var ids, back := Ids(t, path), Some(ImageOf(Subtree(t, path)));
      && (Descend(ImageOf(t), ids) == back <==> Follow(t, ids).Some? && Some(ImageOf(Follow(t, ids).value)) == back)
      && (Unhidden(t, path) ==> Descend(ImageOf(t), ids) == back)
    decreases |path|
  {
    hide Extract, ImageOf, Fits, FirstTree;
    DescendFollows(t, Ids(t, path));
    if path != [] && Unhidden(t, path) {
      var kid, ids := t.kids[path[0]], Ids(t, path);
      assert FitsTree(kid) && ids[0] == kid.id && ids[1..] == Ids(kid, path[1..]);
      NestedRoundTrip(kid, path[1..]);
      var first := t.kids[FirstTree(t.kids, kid.id)];
      DescendFollows(first, ids[1..]);
      DescendFollows(kid, ids[1..]);
    }
  }

  // ---- CommLog::ProbeAndLogDataPacked ----

  /** The log inside an image, as the child would see it. */
  function LogOf(img: Image): Log
  {
    Log(GenerateLog, img.table, img.queue, img.child, 0, false)
  }

  /** Completing the entry in the child's own log. */
  function CompleteImage(img: Image, data: seq<byte>, flag: nat): Image
    requires Valid(LogOf(img)) && LengthAgrees(img.table, flag, |data|)
  {
    var l := ProbeAndLog(LogOf(img), data, flag);
    img.(table := l.table, queue := l.queue)
  }

  /** The first record that has an entry with this flag, or |rs|. */
  function FirstRecord(rs: seq<Packed>, flag: nat): (k: nat)
    ensures k <= |rs|
    ensures k < |rs| ==> FirstFlag(rs[k].img.table, flag) < |rs[k].img.table|
    ensures forall j :: 0 <= j < k ==> FirstFlag(rs[j].img.table, flag) == |rs[j].img.table|
  {
    if rs == [] then 0
    else if FirstFlag(rs[0].img.table, flag) < |rs[0].img.table| then 0
    else 1 + FirstRecord(rs[1..], flag)
  }

  /** The two stores into the parent's buffer: the payload, then the completed_ byte. */
  function PatchAt(buf: seq<byte>, at: nat, n: nat, i: nat, pos: nat, data: seq<byte>): seq<byte>
    requires i < n && at + QueueAt(n) + pos + |data| <= |buf|
  {
    Splice(Splice(buf, at + QueueAt(n) + pos, data), at + TABLE_AT + ENTRY_SIZE * i + COMPLETED_AT, [1])
  }

  lemma {:induction false} CompleteTableInPlace(t: seq<Entry>, i: nat)
    requires i < |t|
    ensures Splice(EncTable(t), ENTRY_SIZE * i + COMPLETED_AT, [1]) == EncTable(t[i := t[i].(completed := true)])
  {
    hide EncEntry, Splice, Concat;
    OffUniform(TableFields(t), ENTRY_SIZE, i);
    SpliceField(TableFields(t), i, COMPLETED_AT, [1]);
    CompleteInPlace(t[i]);
    assert TableFields(t)[i := EncEntry(t[i].(completed := true))] == TableFields(t[i := t[i].(completed := true)]);
  }

  lemma {:induction false} FieldsCompleted(r: Packed, data: seq<byte>, flag: nat)
    requires Valid(LogOf(r.img)) && LengthAgrees(r.img.table, flag, |data|)
    requires FirstFlag(r.img.table, flag) < |r.img.table|
    ensures
      var i := FirstFlag(r.img.table, flag);
      var e := r.img.table[i];
      && e.pos + |data| <= |r.img.queue|
      && Fields(r.(img := CompleteImage(r.img, data, flag)))
         == Fields(r)[5 := Splice(r.img.queue, e.pos, data)]
                     [3 := EncTable(r.img.table[i := e.(completed := true)])]
  {
    hide Splice, EncTable, Words, Word, IdWords, FirstFlag, Tiled;
    TiledBounds(r.img.table, |r.img.queue|, FirstFlag(r.img.table, flag));
  }

  /** On one record, patching the bytes is completing the log and packing it again. */
  lemma {:induction false} PatchOneRecord(r: Packed, data: seq<byte>, flag: nat)
    requires Valid(LogOf(r.img)) && LengthAgrees(r.img.table, flag, |data|)
    requires FirstFlag(r.img.table, flag) < |r.img.table|
    ensures
      var i := FirstFlag(r.img.table, flag);
      && QueueAt(|r.img.table|) + r.img.table[i].pos + |data| <= PackedLength(r.img)
      && PatchAt(Pack(r), 0, |r.img.table|, i, r.img.table[i].pos, data)
         == Pack(r.(img := CompleteImage(r.img, data, flag)))
  {
    hide Splice, Concat, Off, EncTable, FirstFlag, CompleteImage, Valid;
    var t := r.img.table;
    var i := FirstFlag(t, flag);
    var pos := t[i].pos;
    var fs := Fields(r);
    FieldsCompleted(r, data, flag);
    FieldOffsets(r);
    assert fs[5] == r.img.queue && fs[3] == EncTable(t);
    hide Fields;
    SpliceField(fs, 5, pos, data);
    var gs := fs[5 := Splice(r.img.queue, pos, data)];
    OffPrefix(fs, gs, 3);
    SpliceField(gs, 3, ENTRY_SIZE * i + COMPLETED_AT, [1]);
    CompleteTableInPlace(t, i);
  }

  /** A patch inside record k of a buffer is a patch of that record. */
  lemma {:induction false} PatchInside(fs: seq<seq<byte>>, k: nat, n: nat, i: nat, pos: nat, data: seq<byte>)
    requires k < |fs| && i < n && QueueAt(n) + pos + |data| <= |fs[k]|
    ensures Off(fs, k) + |fs[k]| <= |Concat(fs)|
    ensures PatchAt(Concat(fs), Off(fs, k), n, i, pos, data) == Concat(fs[k := PatchAt(fs[k], 0, n, i, pos, data)])
  {
    hide Splice, Concat, Off, Slice;
    FieldAt(fs, k);
    SpliceField(fs, k, QueueAt(n) + pos, data);
    var mid := Splice(fs[k], QueueAt(n) + pos, data);
    var gs := fs[k := mid];
    OffPrefix(fs, gs, k);
    SpliceField(gs, k, TABLE_AT + ENTRY_SIZE * i + COMPLETED_AT, [1]);
    assert gs[k := PatchAt(fs[k], 0, n, i, pos, data)] == fs[k := PatchAt(fs[k], 0, n, i, pos, data)];
  }

  /** The record that would be patched is a well-formed log, and its entry has the length of the data. */
  ghost predicate Patchable(rs: seq<Packed>, data: seq<byte>, flag: nat)
  {
    var k := FirstRecord(rs, flag);
    k < |rs| ==> Valid(LogOf(rs[k].img)) && LengthAgrees(rs[k].img.table, flag, |data|)
  }

  /** What ProbeAndLogDataPacked does to a child buffer, told by its records. */
  function PatchRecords(rs: seq<Packed>, data: seq<byte>, flag: nat): seq<Packed>
    requires Patchable(rs, data, flag)
  {
    var k := FirstRecord(rs, flag);
    if k == |rs| then rs else rs[k := rs[k].(img := CompleteImage(rs[k].img, data, flag))]
  }

  /**
    Patching commutes with packing: storing into the packed bytes gives the buffer that completing the
    entry in the child and then packing gives. Every other record keeps its bytes.
   */
  lemma {:induction false} PatchCommutesWithPacking(rs: seq<Packed>, data: seq<byte>, flag: nat)
    requires Patchable(rs, data, flag) && FirstRecord(rs, flag) < |rs|
    ensures
      var k := FirstRecord(rs, flag);
      var t := rs[k].img.table;
      var i := FirstFlag(t, flag);
      && RecordOff(rs, k) + QueueAt(|t|) + t[i].pos + |data| <= |PackAll(rs)|
      && PatchAt(PackAll(rs), RecordOff(rs, k), |t|, i, t[i].pos, data) == PackAll(PatchRecords(rs, data, flag))
  {
    hide PatchAt, Pack, Concat, Off, FirstRecord, FirstFlag, CompleteImage;
    var k := FirstRecord(rs, flag);
    var t := rs[k].img.table;
    var i := FirstFlag(t, flag);
    PatchOneRecord(rs[k], data, flag);
    PatchInside(Packs(rs), k, |t|, i, t[i].pos, data);
    assert Packs(rs)[k := PatchAt(Pack(rs[k]), 0, |t|, i, t[i].pos, data)] == Packs(PatchRecords(rs, data, flag));
  }
}
