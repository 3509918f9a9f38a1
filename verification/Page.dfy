// Data pages: crates/bvault-core/src/page.rs, PageBuilder. A page is a function of its
// header fields and its rows (DataPage); the builder's buffer is proved equal to it,
// and PageReader recovers the rows from it.
module Page {
  import opened Wrappers
  import opened Bytes

  type Row = bytes

  datatype PageError = PageOverflow

  const PAGE_SIZE: nat := 4096
  const HEAP_START: nat := 0x28
  // A row group takes 36 bytes and indexes 16 rows (ROW_GROUP_SIZE, ROWS_PER_GROUP).

  const PAGE_FLAGS_DATA: byte := 0x24
  const PAGE_FLAGS_DATA_TRACK: byte := 0x34

  // The longest row an empty page takes: one row group is reserved at the end.
  const MAX_ROW: nat := 4020

  const TRACKS: nat := 0
  const HISTORY: nat := 19

  // ---- Space ------------------------------------------------------------------

  // Where the reserved row index starts when it is sized for a page holding n rows.
  function ReservedStart(n: nat): int {
    PAGE_SIZE - (n / 16 + 1) * 36
  }

  // Writing size bytes at heapPos would run into the index of one more row.
  predicate WouldOverflow(rowCount: nat, heapPos: nat, size: nat) {
    heapPos + size > ReservedStart(rowCount + 1)
  }

  // Bytes of padding after a row: to 4-byte alignment, or none when they do not fit.
  function Padding(rowCount: nat, heapPos: nat): (p: nat)
    ensures p <= 3
  {
    var p := (4 - (heapPos - HEAP_START) % 4) % 4;
    if p > 0 && !WouldOverflow(rowCount, heapPos, p) then p else 0
  }

  // The heap holding these rows in order, each followed by its padding.
  function Heap(rows: seq<Row>): bytes
  {
    if rows == [] then []
    else
      var before := Heap(rows[..|rows| - 1]);
      var written := before + rows[|rows| - 1];
      written + Zeros(Padding(|rows|, HEAP_START + |written|))
  }

  function HeapEnd(rows: seq<Row>): nat {
    HEAP_START + |Heap(rows)|
  }

  // Offset of row i from the start of the heap.
  function RowOffset(rows: seq<Row>, i: nat): nat
    requires i < |rows|
  {
    |Heap(rows[..i])|
  }

  // The row fits on a page that already holds these.
  predicate Fits(rows: seq<Row>, row: Row) {
    !WouldOverflow(|rows|, HeapEnd(rows), |row|)
  }

  // What any run of write_row leaves: every row fitted when it was written.
  predicate Written(rows: seq<Row>) {
    rows == [] || (Written(rows[..|rows| - 1]) && Fits(rows[..|rows| - 1], rows[|rows| - 1]))
  }

  lemma {:induction false} WrittenSpace(rows: seq<Row>)
    requires Written(rows)
    ensures HeapEnd(rows) <= ReservedStart(|rows|)
    ensures |rows| <= 1791
  {
    hide ReservedStart, Padding;
    if rows == [] {
      NothingReserved();
    } else {
      var n := |rows|;
      WrittenSpace(rows[..n - 1]);
      var written := Heap(rows[..n - 1]) + rows[n - 1];
      PaddingFits(n, HEAP_START + |written|);
      assert HeapEnd(rows) == HEAP_START + |written| + Padding(n, HEAP_START + |written|);
    }
    RowLimit(|rows|);
  }

  lemma NothingReserved()
    ensures HEAP_START <= ReservedStart(0)
  {}

  lemma PaddingFits(n: nat, pos: nat)
    requires pos <= ReservedStart(n)
    ensures pos + Padding(n, pos) <= ReservedStart(n)
  {}

  // The reserved index outgrows the page before the 1792nd row.
  lemma RowLimit(n: nat)
    requires HEAP_START <= ReservedStart(n)
    ensures n <= 1791
  {}

  lemma {:induction false} WrittenPrefix(rows: seq<Row>, i: nat)
    requires Written(rows) && i <= |rows|
    ensures Written(rows[..i])
  {
    if i < |rows| {
      WrittenPrefix(rows[..|rows| - 1], i);
      assert rows[..|rows| - 1][..i] == rows[..i];
    } else {
      assert rows[..i] == rows;
    }
  }

  // Earlier heap bytes are never touched by later rows.
  lemma {:induction false} HeapPrefix(rows: seq<Row>, i: nat)
    requires i <= |rows|
    ensures Heap(rows[..i]) <= Heap(rows)
  {
    if i < |rows| {
      HeapPrefix(rows[..|rows| - 1], i);
      assert rows[..|rows| - 1][..i] == rows[..i];
    } else {
      assert rows[..i] == rows;
    }
  }

  lemma HeapRow(rows: seq<Row>, i: nat)
    requires i < |rows|
    ensures RowOffset(rows, i) + |rows[i]| <= |Heap(rows)|
    ensures Heap(rows)[RowOffset(rows, i)..RowOffset(rows, i) + |rows[i]|] == rows[i]
    ensures i + 1 < |rows| ==> RowOffset(rows, i) + |rows[i]| <= RowOffset(rows, i + 1)
  {
    var upTo := rows[..i + 1];
    assert upTo[..i] == rows[..i];
    HeapPrefix(rows, i + 1);
    assert Heap(upTo)[RowOffset(rows, i)..RowOffset(rows, i) + |rows[i]|] == rows[i];
  }

  lemma PaddingAligns(rowCount: nat, heapPos: nat)
    ensures (heapPos + Padding(rowCount, heapPos)) % 4 == 0 || WouldOverflow(rowCount, heapPos, 3)
  {}

  // Rows of at least 3 bytes start on 4-byte boundaries, although padding that does not
  // fit is skipped: after skipped padding no such row fits any more.
  lemma {:induction false} OffsetsAligned(rows: seq<Row>)
    requires Written(rows) && forall k :: 0 <= k < |rows| ==> |rows[k]| >= 3
    ensures forall i :: 0 <= i < |rows| ==> RowOffset(rows, i) % 4 == 0
    ensures |Heap(rows)| % 4 == 0 || (forall r: Row :: |r| >= 3 ==> !Fits(rows, r))
  {
    hide ReservedStart, Padding;
    if rows != [] {
      var n := |rows| - 1;
      var before := rows[..n];
      OffsetsAligned(before);
      forall i | 0 <= i < |rows|
        ensures RowOffset(rows, i) % 4 == 0
      {
        assert i < n ==> before[..i] == rows[..i] && RowOffset(before, i) % 4 == 0;
        assert !(forall r: Row :: |r| >= 3 ==> !Fits(before, r)) by {
          assert Fits(before, rows[n]);
        }
      }
      var end := HEAP_START + |Heap(before)| + |rows[n]|;
      assert HeapEnd(rows) == end + Padding(n + 1, end);
      PaddingAligns(n + 1, end);
    }
  }

  // ---- Bytes of a finished page -------------------------------------------------

  function PackedCounts(n: nat): nat {
    n * 4 * 2048 + n
  }

  function DataFlags(pageType: nat): byte {
    if pageType == TRACKS || pageType == HISTORY then PAGE_FLAGS_DATA_TRACK else PAGE_FLAGS_DATA
  }

  function SaturatingSub(a: int, b: int): nat {
    if a >= b then a - b else 0
  }

  // Bytes 0x00-0x17: page index, table type, next page and the word at 0x10.
  function Links(index: nat, pageType: nat, next: nat, word16: nat): (h: bytes)
    ensures |h| == 24
  {
    Zeros(4) + LE32(index) + LE32(pageType) + LE32(next) + LE32(word16) + Zeros(4)
  }

  // Bytes 0x18-0x27: packed row counts, flags, free and used size, row count.
  function Counts(packed: nat, flags: byte, free: nat, used: nat, n: nat): (h: bytes)
    ensures |h| == 16
  {
    [B0(packed), B1(packed), B2(packed)] + [flags] + LE16(free) + LE16(used) + LE16(n) + Zeros(6)
  }

  function Header(index: nat, pageType: nat, next: nat, word16: nat, n: nat, heapEnd: nat): (h: bytes)
    requires heapEnd >= HEAP_START
    ensures |h| == HEAP_START
  {
    Links(index, pageType, next, word16)
    + Counts(PackedCounts(n), DataFlags(pageType), SaturatingSub(ReservedStart(n), heapEnd), heapEnd - HEAP_START, n)
  }

  function Pow2(n: nat): (r: nat)
    ensures r >= 1
  {
    if n == 0 then 1 else 2 * Pow2(n - 1)
  }

  function Groups(n: nat): (g: nat)
    ensures n == 0 ==> g == 1
    ensures n > 0 ==> (g - 1) * 16 < n <= g * 16
  {
    if n == 0 then 1 else (n + 16 - 1) / 16
  }

  function RowsInGroup(n: nat, g: nat): (k: nat)
    ensures k <= 16
  {
    if g * 16 >= n then 0
    else if n - g * 16 < 16 then n - g * 16
    else 16
  }

  // Offsets in reverse order, then the presence flags twice.
  function Group(offsets: seq<nat>, g: nat): (r: bytes)
    ensures |r| == 36
  {
    var flags: nat := Pow2(RowsInGroup(|offsets|, g)) - 1;
    SlotsFrom(offsets, g, 0) + LE16(flags) + LE16(flags)
  }

  // Slots j..15 of a group; slot j holds row 15 - j of the group.
  function SlotsFrom(offsets: seq<nat>, g: nat, j: nat): (r: bytes)
    requires j <= 16
    ensures |r| == 2 * (16 - j)
    decreases 16 - j
  {
    if j == 16 then [] else Slot(offsets, g, j) + SlotsFrom(offsets, g, j + 1)
  }

  function Slot(offsets: seq<nat>, g: nat, j: nat): (r: bytes)
    requires j < 16
    ensures |r| == 2
  {
    var i := g * 16 + (16 - 1 - j);
    if i < |offsets| then LE16(offsets[i]) else [0, 0]
  }

  // Group 0 is the last 36 bytes of the page, group 1 the 36 before it, and so on.
  function RowIndex(offsets: seq<nat>, groups: nat): (r: bytes)
    ensures |r| == groups * 36
  {
    if groups == 0 then [] else Group(offsets, groups - 1) + RowIndex(offsets, groups - 1)
  }

  function Offsets(rows: seq<Row>): (r: seq<nat>)
    ensures |r| == |rows|
  {
    if rows == [] then []
    else Offsets(rows[..|rows| - 1]) + [|Heap(rows[..|rows| - 1])|]
  }

  lemma {:induction false} OffsetsAt(rows: seq<Row>, i: nat)
    requires i < |rows|
    ensures Offsets(rows)[i] == RowOffset(rows, i)
  {
    if i < |rows| - 1 {
      OffsetsAt(rows[..|rows| - 1], i);
      assert rows[..|rows| - 1][..i] == rows[..i];
    }
  }

  lemma GroupsFit(n: nat)
    ensures PAGE_SIZE - Groups(n) * 36 >= ReservedStart(n)
  {}

  // The page up to its row index.
  function Front(index: nat, pageType: nat, next: nat, word16: nat, rows: seq<Row>): (p: bytes)
    requires Written(rows)
    ensures |p| == PAGE_SIZE - Groups(|rows|) * 36
  {
    WrittenSpace(rows);
    GroupsFit(|rows|);
    Header(index, pageType, next, word16, |rows|, HeapEnd(rows))
    + Heap(rows) + Zeros(PAGE_SIZE - Groups(|rows|) * 36 - HeapEnd(rows))
  }

  function DataPage(index: nat, pageType: nat, next: nat, word16: nat, rows: seq<Row>): (p: bytes)
    requires Written(rows)
    ensures |p| == PAGE_SIZE
  {
    Front(index, pageType, next, word16, rows) + RowIndex(Offsets(rows), Groups(|rows|))
  }

  // The buffer of an unfinished page: header and free space still zero.
  function Unfinished(rows: seq<Row>): (p: bytes)
    requires HeapEnd(rows) <= PAGE_SIZE
    ensures |p| == PAGE_SIZE
  {
    Zeros(HEAP_START) + Heap(rows) + Zeros(PAGE_SIZE - HeapEnd(rows))
  }

  lemma HeapSnoc(rows: seq<Row>, row: Row)
    ensures Heap(rows + [row]) ==
            Heap(rows) + row + Zeros(Padding(|rows| + 1, HeapEnd(rows) + |row|))
    ensures Offsets(rows + [row]) == Offsets(rows) + [|Heap(rows)|]
    ensures Written(rows) && Fits(rows, row) ==> Written(rows + [row])
  {
    var more := rows + [row];
    assert more[..|more| - 1] == rows;
    assert HEAP_START + |Heap(rows) + row| == HeapEnd(rows) + |row|;
  }

  lemma UnfinishedSnoc(rows: seq<Row>, row: Row)
    requires HeapEnd(rows + [row]) <= PAGE_SIZE
    ensures HeapEnd(rows) + |row| <= HeapEnd(rows + [row])
    ensures Put(Unfinished(rows), HeapEnd(rows), row) == Unfinished(rows + [row])
  {
    hide Padding;
    HeapSnoc(rows, row);
    var padding := Padding(|rows| + 1, HeapEnd(rows) + |row|);
    PutThenPad(Zeros(HEAP_START) + Heap(rows), row, padding, PAGE_SIZE - HeapEnd(rows + [row]));
    Regroup(Zeros(HEAP_START), Heap(rows), row, Zeros(padding));
  }

  lemma Finished(rows: seq<Row>, header: bytes, index: bytes)
    requires HeapEnd(rows) + |index| <= PAGE_SIZE && |header| == HEAP_START
    ensures Put(Put(Unfinished(rows), 0, header), PAGE_SIZE - |index|, index)
         == header + Heap(rows) + Zeros(PAGE_SIZE - |index| - HeapEnd(rows)) + index
  {}

  lemma PutThenPad(a: bytes, row: bytes, padding: nat, rest: nat)
    ensures Put(a + Zeros(|row| + padding + rest), |a|, row) == a + row + Zeros(padding) + Zeros(rest)
  {
    PutAfter(a, Zeros(|row| + padding + rest), row);
    ZerosSplit(|row|, padding + rest);
    ZerosSplit(padding, rest);
    assert a + row + (Zeros(padding) + Zeros(rest)) == a + row + Zeros(padding) + Zeros(rest);
  }

  lemma Regroup(a: bytes, b: bytes, c: bytes, d: bytes)
    ensures a + b + c + d == a + (b + c + d)
  {}

  // ---- The builder ----------------------------------------------------------------

  class PageBuilder {
    const pageIndex: nat
    const pageType: nat
    const data: array<byte>
    var heapPos: nat
    var rowOffsets: seq<nat>
    ghost var rows: seq<Row>

    ghost predicate Valid()
      reads this, data
    {
      && data.Length == PAGE_SIZE
      && Written(rows)
      && heapPos == HeapEnd(rows) <= PAGE_SIZE
      && rowOffsets == Offsets(rows)
      && data[..] == Unfinished(rows)
    }

    constructor (pageIndex: nat, pageType: nat)
      ensures Valid() && fresh(data) && rows == []
      ensures this.pageIndex == pageIndex && this.pageType == pageType
    {
      this.pageIndex, this.pageType := pageIndex, pageType;
      data := new byte[PAGE_SIZE](_ => 0);
      heapPos := HEAP_START;
      rowOffsets := [];
      rows := [];
    }

    predicate Overflows(size: nat)
      reads this
    {
      WouldOverflow(|rowOffsets|, heapPos, size)
    }

    // Fails, changing nothing, exactly when the row does not fit; otherwise appends it.
    method WriteRow(row: Row) returns (r: Result<nat, PageError>)
      requires Valid()
      modifies this, data
      ensures Valid()
      ensures r.Success? <==> Fits(old(rows), row)
      ensures r.Success? ==> rows == old(rows) + [row] && r.value == RowOffset(rows, |old(rows)|)
      ensures r.Failure? ==> rows == old(rows) && data[..] == old(data[..])
    {
      hide Heap, Offsets, Unfinished;
      if Overflows(|row|) {
        return Failure(PageOverflow);
      }
      var offset := heapPos - HEAP_START;
      HeapSnoc(rows, row);
      WrittenSpace(rows + [row]);
      UnfinishedSnoc(rows, row);
      CopyInto(data, heapPos, row);
      heapPos := heapPos + |row|;
      rowOffsets := rowOffsets + [offset];
      rows := rows + [row];
      var padding := (4 - (heapPos - HEAP_START) % 4) % 4;
      if padding > 0 && !Overflows(padding) {
        heapPos := heapPos + padding;
      }
      r := Success(offset);
    }

    // Writes the page header and the row index and hands over the bytes. The word at
    // 0x10 is the row count here; the database overwrites it later.
    method Finalize(next: nat) returns (page: bytes)
      requires Valid()
      modifies data
      ensures page == DataPage(pageIndex, pageType, next, |rows|, rows)
    {
      hide Heap, Offsets, Header, RowIndex;
      WrittenSpace(rows);
      GroupsFit(|rows|);
      var n := |rowOffsets|;
      WriteHeader(next);
      WriteRowIndex(Groups(n));
      page := data[..];
      Finished(rows, Header(pageIndex, pageType, next, n, n, heapPos), RowIndex(rowOffsets, Groups(n)));
    }

    method WriteHeader(next: nat)
      requires data.Length == PAGE_SIZE && HEAP_START <= heapPos
      requires forall k :: 0 <= k < HEAP_START ==> data[k] == 0
      modifies data
      ensures data[..] == Put(old(data[..]), 0, Header(pageIndex, pageType, next, |rowOffsets|, |rowOffsets|, heapPos))
    {
      ghost var was := data[..];
      var n := |rowOffsets|;
      var free, used := SaturatingSub(ReservedStart(n), heapPos), heapPos - HEAP_START;
      WriteLinks(next);
      WriteCounts(n * 4 * 2048 + n, DataFlags(pageType), free, used, n);
      PutAdjacent(was, 0, Links(pageIndex, pageType, next, n),
        Counts(n * 4 * 2048 + n, DataFlags(pageType), free, used, n));
    }

    method WriteLinks(next: nat)
      requires data.Length == PAGE_SIZE
      requires forall k :: 0 <= k < 24 ==> data[k] == 0
      modifies data
      ensures data[..] == Put(old(data[..]), 0, Links(pageIndex, pageType, next, |rowOffsets|))
    {
      CopyInto(data, 0x04, LE32(pageIndex));
      CopyInto(data, 0x08, LE32(pageType));
      CopyInto(data, 0x0C, LE32(next));
      CopyInto(data, 0x10, LE32(|rowOffsets|));
    }

    method WriteCounts(packed: nat, flags: byte, free: nat, used: nat, n: nat)
      requires data.Length == PAGE_SIZE
      requires forall k :: 24 <= k < HEAP_START ==> data[k] == 0
      modifies data
      ensures data[..] == Put(old(data[..]), 24, Counts(packed, flags, free, used, n))
    {
      CopyInto(data, 0x18, [B0(packed), B1(packed), B2(packed)]);
      CopyInto(data, 0x1B, [flags]);
      CopyInto(data, 0x1C, LE16(free));
      CopyInto(data, 0x1E, LE16(used));
      CopyInto(data, 0x20, LE16(n));
    }

    method WriteRowIndex(groups: nat)
      requires data.Length == PAGE_SIZE && groups * 36 <= PAGE_SIZE
      requires data[PAGE_SIZE - groups * 36..] == Zeros(groups * 36)
      modifies data
      ensures data[..] == GroupsWritten(old(data[..]), rowOffsets, groups)
    {
      hide Group;
      ghost var was := data[..];
      for g := 0 to groups
        invariant data[..] == GroupsWritten(was, rowOffsets, g)
      {
        var start := PAGE_SIZE - (g + 1) * 36;
        assert was[start..start + 36] == was[PAGE_SIZE - groups * 36..][(groups - g - 1) * 36..(groups - g) * 36];
        WriteGroup(g, start, was);
      }
    }

    method WriteGroup(g: nat, start: nat, ghost before: bytes)
      requires |before| == PAGE_SIZE && start == PAGE_SIZE - (g + 1) * 36
      requires data[..] == GroupsWritten(before, rowOffsets, g)
      requires before[start..start + 36] == Zeros(36)
      modifies data
      ensures data[..] == GroupsWritten(before, rowOffsets, g + 1)
    {
      hide LE16, RowIndex, Slots, SlotsFrom, GroupsWritten, Put, Pow2;
      ghost var was := data[..];
      NextGroupIsZero(before, start, rowOffsets, g);
      var inGroup := RowsInGroup(|rowOffsets|, g);
      NoSlots(rowOffsets, g);
      assert data[..] == Put(was, start, Slots(rowOffsets, g, 16));
      for i := 0 to inGroup
        invariant data[..] == Put(was, start, Slots(rowOffsets, g, 16 - i))
      {
        var slot := 15 - i;
        assert Slot(rowOffsets, g, slot) == LE16(rowOffsets[g * 16 + i]);
        PutSlot(was, start, rowOffsets, g, slot);
        CopyInto(data, start + slot * 2, LE16(rowOffsets[g * 16 + i]));
      }
      EmptySlots(rowOffsets, g, 16 - inGroup);
      var flags := LE16(Pow2(inGroup) - 1);
      PutFlags(was, start, SlotsFrom(rowOffsets, g, 0), flags);
      assert Group(rowOffsets, g) == SlotsFrom(rowOffsets, g, 0) + flags + flags;
      CopyInto(data, start + 32, flags);
      CopyInto(data, start + 34, flags);
      PutGroup(before, start, rowOffsets, g);
      GroupsStep(before, start, rowOffsets, g);
    }
  }

  // The 36 bytes of a group when slots j..15 are in place and the rest is still zero.
  function Slots(offsets: seq<nat>, g: nat, j: nat): (r: bytes)
    requires j <= 16
    ensures |r| == 36
  {
    Zeros(2 * j) + SlotsFrom(offsets, g, j) + Zeros(4)
  }

  lemma NoSlots(offsets: seq<nat>, g: nat)
    ensures Slots(offsets, g, 16) == Zeros(36)
  {}

  lemma SlotsStep(offsets: seq<nat>, g: nat, j: nat)
    requires j < 16
    ensures Put(Slots(offsets, g, j + 1), 2 * j, Slot(offsets, g, j)) == Slots(offsets, g, j)
  {
    hide Slot;
    ZerosSplit(2 * j, 2);
    PutMiddle(Zeros(2 * j), Zeros(2), SlotsFrom(offsets, g, j + 1) + Zeros(4), Slot(offsets, g, j));
    assert Slots(offsets, g, j + 1) == Zeros(2 * j) + Zeros(2) + (SlotsFrom(offsets, g, j + 1) + Zeros(4));
  }

  // The page after the first groups of its row index were written over `was`.
  function GroupsWritten(was: bytes, offsets: seq<nat>, groups: nat): (r: bytes)
    requires groups * 36 <= |was|
    ensures |r| == |was|
  {
    Put(was, |was| - groups * 36, RowIndex(offsets, groups))
  }

  lemma NextGroupIsZero(before: bytes, start: nat, offsets: seq<nat>, g: nat)
    requires |before| == PAGE_SIZE && start == PAGE_SIZE - (g + 1) * 36 && before[start..start + 36] == Zeros(36)
    ensures Put(GroupsWritten(before, offsets, g), start, Zeros(36)) == GroupsWritten(before, offsets, g)
  {
    assert GroupsWritten(before, offsets, g)[start..start + 36] == before[start..start + 36];
  }

  lemma GroupsStep(before: bytes, start: nat, offsets: seq<nat>, g: nat)
    requires |before| == PAGE_SIZE && start == PAGE_SIZE - (g + 1) * 36
    ensures GroupsWritten(before, offsets, g) == Put(before, start + 36, RowIndex(offsets, g))
    ensures GroupsWritten(before, offsets, g + 1) == Put(before, start, RowIndex(offsets, g + 1))
  {
    hide Put, RowIndex;
    assert start + 36 == |before| - g * 36;
  }

  lemma PutGroup(was: bytes, start: nat, offsets: seq<nat>, g: nat)
    requires start + (g + 1) * 36 == |was|
    ensures Put(Put(was, start + 36, RowIndex(offsets, g)), start, Group(offsets, g))
         == Put(was, start, RowIndex(offsets, g + 1))
  {
    PutBefore(was, start, Group(offsets, g), RowIndex(offsets, g));
  }

  lemma PutSlot(was: bytes, start: nat, offsets: seq<nat>, g: nat, j: nat)
    requires j < 16 && start + 36 <= |was|
    ensures Put(Put(was, start, Slots(offsets, g, j + 1)), start + 2 * j, Slot(offsets, g, j))
         == Put(was, start, Slots(offsets, g, j))
  {
    SlotsStep(offsets, g, j);
    PutPut(was, start, Slots(offsets, g, j + 1), 2 * j, Slot(offsets, g, j));
  }

  lemma PutFlags(was: bytes, start: nat, slots: bytes, flags: bytes)
    requires |slots| == 32 && |flags| == 2 && start + 36 <= |was|
    ensures Put(Put(Put(was, start, slots + Zeros(4)), start + 32, flags), start + 34, flags)
         == Put(was, start, slots + flags + flags)
  {}

  // Slots for rows that do not exist are zero, so leaving them unwritten is right.
  lemma {:induction false} EmptySlots(offsets: seq<nat>, g: nat, j: nat)
    requires j <= 16 - RowsInGroup(|offsets|, g)
    ensures Slots(offsets, g, j) == SlotsFrom(offsets, g, 0) + Zeros(4)
  {
    hide LE16, Put, SlotsFrom;
    if j > 0 {
      hide Slots;
      EmptySlots(offsets, g, j - 1);
      SlotsStep(offsets, g, j - 1);
      assert Slot(offsets, g, j - 1) == [0, 0];
      ZeroSlot(offsets, g, j);
    }
  }

  lemma ZeroSlot(offsets: seq<nat>, g: nat, j: nat)
    requires 0 < j <= 16
    ensures Put(Slots(offsets, g, j), 2 * j - 2, [0, 0]) == Slots(offsets, g, j)
  {
    hide SlotsFrom;
  }
}
