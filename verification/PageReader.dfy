// A reader of single pages, written from the layout alone: packed counts at 0x18,
// row groups of 36 bytes growing back from the end with offsets in reverse order.
module PageReader {
  import opened Bytes
  import opened Page

  function PageIndexOf(page: bytes): nat requires |page| == PAGE_SIZE { Get32(page, 4) }
  function TypeOf(page: bytes): nat requires |page| == PAGE_SIZE { Get32(page, 8) }
  function NextOf(page: bytes): nat requires |page| == PAGE_SIZE { Get32(page, 12) }
  function SequenceOf(page: bytes): nat requires |page| == PAGE_SIZE { Get32(page, 16) }
  function NumRows(page: bytes): nat requires |page| == PAGE_SIZE { Get24(page, 24) % 2048 }
  function NumRowOffsets(page: bytes): nat requires |page| == PAGE_SIZE { Get24(page, 24) / 2048 }

  // Index pages carry the flag bit 0x40.
  predicate IsIndexPage(page: bytes)
    requires |page| == PAGE_SIZE
  {
    page[27] as int / 0x40 % 2 == 1
  }

  function GroupStart(i: nat): int {
    PAGE_SIZE - (i / 16 + 1) * 36
  }

  predicate Present(page: bytes, i: nat)
    requires |page| == PAGE_SIZE && GroupStart(i) >= 0
  {
    Bit(Get16(page, GroupStart(i) + 32), i % 16)
  }

  predicate Bit(x: nat, i: nat) {
    if i == 0 then x % 2 == 1 else Bit(x / 2, i - 1)
  }

  function StoredOffset(page: bytes, i: nat): nat
    requires |page| == PAGE_SIZE && GroupStart(i) >= 0
  {
    Get16(page, GroupStart(i) + 2 * (15 - i % 16))
  }

  // From the first byte of row i on; a row's own format says where it ends.
  function RowTail(page: bytes, i: nat): bytes
    requires |page| == PAGE_SIZE
  {
    if GroupStart(i) < 0 || !Present(page, i) || HEAP_START + StoredOffset(page, i) > PAGE_SIZE then []
    else page[HEAP_START + StoredOffset(page, i)..]
  }

  function Tails(page: bytes): (r: seq<bytes>)
    requires |page| == PAGE_SIZE
    ensures |r| == NumRows(page) && forall i :: 0 <= i < |r| ==> r[i] == RowTail(page, i)
  {
    seq(NumRows(page), i requires 0 <= i < NumRows(page) => RowTail(page, i))
  }

  // The presence flags of n rows have exactly bits 0..n-1 set.
  lemma {:induction false} LowBits(n: nat, i: nat)
    ensures Bit(Pow2(n) - 1, i) <==> i < n
    decreases i
  {
    if i > 0 && n > 0 {
      LowBits(n - 1, i - 1);
      assert (Pow2(n) - 1) / 2 == Pow2(n - 1) - 1;
    } else if i > 0 {
      LowBits(0, i - 1);
    }
  }

  lemma {:induction false} Pow2Bound(n: nat)
    requires n <= 16
    ensures Pow2(n) <= 0x1_0000
    decreases 16 - n
  {
    if n < 16 {
      Pow2Bound(n + 1);
    } else {
      assert Pow2(4) == 16 && Pow2(6) == 64 && Pow2(8) == 256;
      assert Pow2(10) == 1024 && Pow2(12) == 4096 && Pow2(14) == 16384;
    }
  }

  // Group g sits at GroupStart of each of its rows.
  lemma {:induction false} RowIndexGroup(offsets: seq<nat>, groups: nat, g: nat)
    requires g < groups
    ensures RowIndex(offsets, groups)[(groups - 1 - g) * 36..(groups - g) * 36] == Group(offsets, g)
  {
    hide Group;
    var head, rest := Group(offsets, groups - 1), RowIndex(offsets, groups - 1);
    if g < groups - 1 {
      RowIndexGroup(offsets, groups - 1, g);
      SliceAfter(head, rest, (groups - 2 - g) * 36, (groups - 1 - g) * 36);
    } else {
      assert (head + rest)[..36] == head;
    }
  }

  lemma SliceAfter(a: bytes, b: bytes, lo: nat, hi: nat)
    requires lo <= hi <= |b|
    ensures (a + b)[|a| + lo..|a| + hi] == b[lo..hi]
  {}

  lemma {:induction false} SlotsFromAt(offsets: seq<nat>, g: nat, j: nat, k: nat)
    requires j <= k < 16
    ensures SlotsFrom(offsets, g, j)[2 * (k - j)..2 * (k - j) + 2] == Slot(offsets, g, k)
    decreases 16 - j
  {
    hide Slot;
    if j < k {
      SlotsFromAt(offsets, g, j + 1, k);
      SliceAfter(Slot(offsets, g, j), SlotsFrom(offsets, g, j + 1), 2 * (k - j - 1), 2 * (k - j));
    }
  }

  // The group of a finished page.
  lemma PageGroup(index: nat, pageType: nat, next: nat, word16: nat, rows: seq<Row>, g: nat)
    requires Written(rows) && g < Groups(|rows|)
    ensures PAGE_SIZE - (g + 1) * 36 >= 0
    ensures DataPage(index, pageType, next, word16, rows)[PAGE_SIZE - (g + 1) * 36..PAGE_SIZE - g * 36]
      == Group(Offsets(rows), g)
  {
    hide Group, Front, Offsets, RowIndex, Groups, Written;
    var groups := Groups(|rows|);
    var front, rowIndex := Front(index, pageType, next, word16, rows), RowIndex(Offsets(rows), groups);
    RowIndexGroup(Offsets(rows), groups, g);
    assert |front| == PAGE_SIZE - 36 * groups && |rowIndex| == 36 * groups;
    SliceAfter(front, rowIndex, (groups - 1 - g) * 36, (groups - g) * 36);
  }

  lemma LinksRead(page: bytes, index: nat, pageType: nat, next: nat, word16: nat)
    requires |page| == PAGE_SIZE && page[..24] == Links(index, pageType, next, word16)
    requires index < U32_LIMIT && pageType < U32_LIMIT && next < U32_LIMIT && word16 < U32_LIMIT
    ensures PageIndexOf(page) == index && TypeOf(page) == pageType
    ensures NextOf(page) == next && SequenceOf(page) == word16
  {
    hide LE32, Get32;
    var links := page[..24];
    assert page[4..8] == links[4..8] == LE32(index);
    assert page[8..12] == links[8..12] == LE32(pageType);
    assert page[12..16] == links[12..16] == LE32(next);
    assert page[16..20] == links[16..20] == LE32(word16);
    ReadLE32(page, 4, index);
    ReadLE32(page, 8, pageType);
    ReadLE32(page, 12, next);
    ReadLE32(page, 16, word16);
  }

  lemma CountsRead(page: bytes, packed: nat, flags: byte, free: nat, used: nat, n: nat)
    requires |page| == PAGE_SIZE && page[24..40] == Counts(packed, flags, free, used, n)
    requires packed < 0x100_0000 && used < U16_LIMIT
    ensures Get24(page, 24) == packed && page[27] == flags && Get16(page, 30) == used
  {
    hide LE16;
    var counts := page[24..40];
    assert page[24] == counts[0] && page[25] == counts[1] && page[26] == counts[2] && page[27] == counts[3];
    SplitU24(packed);
    assert page[30..32] == counts[6..8] == LE16(used);
    ReadLE16(page, 30, used);
  }

  lemma PackedParts(n: nat)
    requires n < 2048
    ensures PackedCounts(n) < 0x100_0000 && PackedCounts(n) % 2048 == n && PackedCounts(n) / 2048 == 4 * n
  {}

  lemma ClassOfData(pageType: nat)
    ensures DataFlags(pageType) == if pageType in {0, 19} then 0x34 else 0x24
    ensures DataFlags(pageType) as int / 0x40 % 2 == 0
  {}

  // The header fields of a finished page read back; the packed counts keep the row
  // count apart from the offset count because a page never holds 2048 rows.
  lemma HeaderReads(index: nat, pageType: nat, next: nat, word16: nat, rows: seq<Row>)
    requires Written(rows)
    requires index < U32_LIMIT && pageType < U32_LIMIT && next < U32_LIMIT && word16 < U32_LIMIT
    ensures var page := DataPage(index, pageType, next, word16, rows);
      && PageIndexOf(page) == index && TypeOf(page) == pageType
      && NextOf(page) == next && SequenceOf(page) == word16
      && page[27] == DataFlags(pageType) && !IsIndexPage(page)
      && Get24(page, 24) == PackedCounts(|rows|)
      && NumRows(page) == |rows| && NumRowOffsets(page) == 4 * |rows|
      && Get16(page, 30) == |Heap(rows)|
  {
    hide Heap, Offsets, RowIndex, Groups, Links, Counts, SaturatingSub, ReservedStart, Get16, Get24, Get32,
         Written, PackedCounts, DataFlags;
    WrittenSpace(rows);
    EndOfHeap(rows);
    PackedParts(|rows|);
    ClassOfData(pageType);
    var page := DataPage(index, pageType, next, word16, rows);
    assert page[..24] == Links(index, pageType, next, word16);
    LinksRead(page, index, pageType, next, word16);
    var n := |rows|;
    var free, used: nat := SaturatingSub(ReservedStart(n), HeapEnd(rows)), HeapEnd(rows) - HEAP_START;
    assert page[24..40] == Counts(PackedCounts(n), DataFlags(pageType), free, used, n);
    CountsRead(page, PackedCounts(n), DataFlags(pageType), free, used, n);
  }

  // The rest of the header: the page class, the row count once more, and sizes that add up
  // to the whole page. What is left over is zero.
  lemma HeaderSays(index: nat, pageType: nat, next: nat, word16: nat, rows: seq<Row>)
    requires Written(rows)
    ensures var page := DataPage(index, pageType, next, word16, rows);
      && page[27] == (if pageType in {0, 19} then 0x34 else 0x24)
      && Get16(page, 32) == |rows|
      && 40 + Get16(page, 30) + Get16(page, 28) + 36 * (|rows| / 16 + 1) == 4096
      && page[0..4] == Zeros(4) && page[20..24] == Zeros(4) && page[34..40] == Zeros(6)
  {
    hide DataPage, Links, Counts, Get16, Written, Heap, PackedCounts, DataFlags, ReservedStart;
    WrittenSpace(rows);
    var page, n := DataPage(index, pageType, next, word16, rows), |rows|;
    SizesAddUp(n, HeapEnd(rows));
    var free: nat, used: nat := ReservedStart(n) - HeapEnd(rows), HeapEnd(rows) - HEAP_START;
    HeaderBytes(index, pageType, next, word16, rows);
    LinksSay(page, index, pageType, next, word16);
    CountsSay(page, PackedCounts(n), DataFlags(pageType), free, used, n);
    ClassOfData(pageType);
  }

  lemma SizesAddUp(n: nat, heapEnd: nat)
    requires HEAP_START <= heapEnd <= ReservedStart(n)
    ensures ReservedStart(n) <= 4096
    ensures 40 + (heapEnd - HEAP_START) + (ReservedStart(n) - heapEnd) + 36 * (n / 16 + 1) == 4096
  {}

  lemma HeaderBytes(index: nat, pageType: nat, next: nat, word16: nat, rows: seq<Row>)
    requires Written(rows) && HEAP_START <= HeapEnd(rows) <= ReservedStart(|rows|)
    ensures var page, n := DataPage(index, pageType, next, word16, rows), |rows|;
      && page[0..24] == Links(index, pageType, next, word16)
      && page[24..40] == Counts(PackedCounts(n), DataFlags(pageType), ReservedStart(n) - HeapEnd(rows),
                                HeapEnd(rows) - HEAP_START, n)
  {
    hide Heap, Offsets, RowIndex, Groups, Links, Counts, Written, PackedCounts, DataFlags, ReservedStart;
  }

  lemma LinksSay(page: bytes, index: nat, pageType: nat, next: nat, word16: nat)
    requires |page| == PAGE_SIZE && page[0..24] == Links(index, pageType, next, word16)
    ensures page[0..4] == Zeros(4) && page[20..24] == Zeros(4)
  {
    hide LE32;
    SubSlice(page, 0, 24, 0, 4);
    SubSlice(page, 0, 24, 20, 24);
    assert Links(index, pageType, next, word16)[20..24] == Zeros(4);
  }

  lemma CountsSay(page: bytes, packed: nat, flags: byte, free: nat, used: nat, n: nat)
    requires |page| == PAGE_SIZE && page[24..40] == Counts(packed, flags, free, used, n)
    requires free < U16_LIMIT && used < U16_LIMIT && n < U16_LIMIT
    ensures page[27] == flags && Get16(page, 28) == free && Get16(page, 30) == used && Get16(page, 32) == n
    ensures page[34..40] == Zeros(6)
  {
    hide LE16, Get16, B0, B1, B2;
    var counts := page[24..40];
    SubSlice(page, 24, 40, 4, 6);
    SubSlice(page, 24, 40, 6, 8);
    SubSlice(page, 24, 40, 8, 10);
    SubSlice(page, 24, 40, 10, 16);
    assert counts[4..6] == LE16(free) && counts[6..8] == LE16(used) && counts[8..10] == LE16(n);
    assert counts[10..16] == Zeros(6) && page[27] == counts[3];
    ReadLE16(page, 28, free);
    ReadLE16(page, 30, used);
    ReadLE16(page, 32, n);
  }

  predicate FlagsTwice(page: bytes, i: nat)
    requires |page| == PAGE_SIZE && GroupStart(i) >= 0
  {
    Get16(page, GroupStart(i) + 34) == Get16(page, GroupStart(i) + 32)
  }

  // The presence flags of a group are stored twice, and slots without a row hold zero.
  lemma GroupSays(index: nat, pageType: nat, next: nat, word16: nat, rows: seq<Row>, i: nat)
    requires Written(rows) && i < Groups(|rows|) * 16
    ensures GroupStart(i) >= 0 && FlagsTwice(DataPage(index, pageType, next, word16, rows), i)
    ensures i >= |rows| ==> StoredOffset(DataPage(index, pageType, next, word16, rows), i) == 0
  {
    hide Heap, DataPage, Offsets, Written, Groups, Get16, Group, RowsInGroup;
    var page := DataPage(index, pageType, next, word16, rows);
    GroupOf(|rows|, i);
    PageGroup(index, pageType, next, word16, rows, i / 16);
    GroupWords(page, GroupStart(i), Offsets(rows), i / 16, 15 - i % 16);
  }

  lemma GroupWords(page: bytes, at: nat, offsets: seq<nat>, g: nat, j: nat)
    requires at + 36 <= |page| && page[at..at + 36] == Group(offsets, g) && j < 16
    ensures Get16(page, at + 34) == Get16(page, at + 32)
    ensures g * 16 + 15 - j >= |offsets| ==> Get16(page, at + 2 * j) == 0
  {
    hide SlotsFrom, Get16, LE16, Pow2, RowsInGroup, Slot;
    var group, slots := Group(offsets, g), SlotsFrom(offsets, g, 0);
    SubSlice(page, at, at + 36, 32, 34);
    SubSlice(page, at, at + 36, 34, 36);
    assert group[32..34] == group[34..36];
    SameWord(page, at + 32, at + 34);
    if g * 16 + 15 - j >= |offsets| {
      SlotsFromAt(offsets, g, 0, j);
      SubSlice(page, at, at + 36, 2 * j, 2 * j + 2);
      assert group[2 * j..2 * j + 2] == slots[2 * j..2 * j + 2];
      EmptySlot(offsets, g, j);
      ZeroWordRead(page, at + 2 * j);
    }
  }

  lemma SameWord(page: bytes, a: nat, b: nat)
    requires a + 2 <= |page| && b + 2 <= |page| && page[a..a + 2] == page[b..b + 2]
    ensures Get16(page, a) == Get16(page, b)
  {
    assert page[a] == page[a..a + 2][0] && page[a + 1] == page[a..a + 2][1];
    assert page[b] == page[b..b + 2][0] && page[b + 1] == page[b..b + 2][1];
  }

  lemma EmptySlot(offsets: seq<nat>, g: nat, j: nat)
    requires j < 16 && g * 16 + 15 - j >= |offsets|
    ensures Slot(offsets, g, j) == [0, 0]
  {}

  lemma ZeroWordRead(page: bytes, at: nat)
    requires at + 2 <= |page| && page[at..at + 2] == [0, 0]
    ensures Get16(page, at) == 0
  {
    assert page[at] == page[at..at + 2][0] && page[at + 1] == page[at..at + 2][1];
  }

  lemma EndOfHeap(rows: seq<Row>)
    requires Written(rows)
    ensures HeapEnd(rows) <= PAGE_SIZE
  {
    WrittenSpace(rows);
  }

  // Every row is marked present, its offset is stored in its slot, and the bytes from
  // there on start with the row; slots beyond the last row are marked absent.
  lemma RowReads(index: nat, pageType: nat, next: nat, word16: nat, rows: seq<Row>, i: nat)
    requires Written(rows) && i < Groups(|rows|) * 16
    ensures GroupStart(i) >= 0
    ensures Present(DataPage(index, pageType, next, word16, rows), i) <==> i < |rows|
    ensures i < |rows| ==>
      && StoredOffset(DataPage(index, pageType, next, word16, rows), i) == RowOffset(rows, i)
      && rows[i] <= RowTail(DataPage(index, pageType, next, word16, rows), i)
  {
    hide Heap, DataPage, Group, Get16, Offsets, Written, RowTail, RowOffset, StoredOffset, Groups, Present;
    var page := DataPage(index, pageType, next, word16, rows);
    GroupOf(|rows|, i);
    PageGroup(index, pageType, next, word16, rows, i / 16);
    PresentExactly(page, rows, i);
    if i < |rows| {
      SlotReads(page, rows, i);
      RowBytes(index, pageType, next, word16, rows, i);
      TailIs(page, rows, i);
    }
  }

  lemma PresentExactly(page: bytes, rows: seq<Row>, i: nat)
    requires |page| == PAGE_SIZE && GroupStart(i) >= 0
    requires page[GroupStart(i)..GroupStart(i) + 36] == Group(Offsets(rows), i / 16)
    ensures Present(page, i) <==> i < |rows|
  {
    hide Group, Get16, Offsets, GroupStart;
    GroupInPage(i);
    FlagSays(page, GroupStart(i), Offsets(rows), i / 16, i % 16);
  }

  lemma GroupInPage(i: nat)
    ensures GroupStart(i) + 36 <= PAGE_SIZE
  {}

  lemma FlagSays(page: bytes, at: nat, offsets: seq<nat>, g: nat, r: nat)
    requires at + 36 <= |page| && page[at..at + 36] == Group(offsets, g) && r < 16
    ensures Bit(Get16(page, at + 32), r) <==> g * 16 + r < |offsets|
  {
    hide Group, Get16, Pow2, Bit;
    FlagsRead(page, at, offsets, g);
    LowBits(RowsInGroup(|offsets|, g), r);
  }

  lemma GroupOf(n: nat, i: nat)
    requires i < Groups(n) * 16
    ensures i / 16 < Groups(n)
    ensures i % 16 < RowsInGroup(n, i / 16) <==> i < n
  {}

  lemma FlagsRead(page: bytes, at: nat, offsets: seq<nat>, g: nat)
    requires at + 36 <= |page| && page[at..at + 36] == Group(offsets, g)
    ensures Get16(page, at + 32) == Pow2(RowsInGroup(|offsets|, g)) - 1
  {
    hide SlotsFrom, Get16, LE16, Pow2, RowsInGroup;
    var flags := Pow2(RowsInGroup(|offsets|, g)) - 1;
    Pow2Bound(RowsInGroup(|offsets|, g));
    SubSlice(page, at, at + 36, 32, 34);
    assert Group(offsets, g)[32..34] == LE16(flags);
    ReadLE16(page, at + 32, flags);
  }

  lemma TailIs(page: bytes, rows: seq<Row>, i: nat)
    requires |page| == PAGE_SIZE && i < |rows| && GroupStart(i) >= 0
    requires Present(page, i) && StoredOffset(page, i) == RowOffset(rows, i)
    requires HEAP_START + RowOffset(rows, i) <= PAGE_SIZE
    ensures RowTail(page, i) == page[HEAP_START + RowOffset(rows, i)..]
  {}

  lemma SlotReads(page: bytes, rows: seq<Row>, i: nat)
    requires |page| == PAGE_SIZE && Written(rows) && i < |rows| && GroupStart(i) >= 0
    requires page[GroupStart(i)..GroupStart(i) + 36] == Group(Offsets(rows), i / 16)
    ensures StoredOffset(page, i) == RowOffset(rows, i)
  {
    hide Heap, Group, Get16, Offsets, Written;
    OffsetsAt(rows, i);
    OffsetBound(rows, i);
    SlotRead(page, GroupStart(i), Offsets(rows), i / 16, i % 16);
  }

  lemma SlotRead(page: bytes, at: nat, offsets: seq<nat>, g: nat, r: nat)
    requires at + 36 <= |page| && page[at..at + 36] == Group(offsets, g)
    requires r < 16 && g * 16 + r < |offsets| && offsets[g * 16 + r] < U16_LIMIT
    ensures Get16(page, at + 2 * (15 - r)) == offsets[g * 16 + r]
  {
    hide SlotsFrom, Get16, LE16, Pow2;
    var j := 15 - r;
    var slots := SlotsFrom(offsets, g, 0);
    SlotsFromAt(offsets, g, 0, j);
    SubSlice(page, at, at + 36, 2 * j, 2 * j + 2);
    assert Group(offsets, g)[2 * j..2 * j + 2] == slots[2 * j..2 * j + 2];
    ReadLE16(page, at + 2 * j, offsets[g * 16 + r]);
  }

  lemma OffsetBound(rows: seq<Row>, i: nat)
    requires Written(rows) && i < |rows|
    ensures HEAP_START + RowOffset(rows, i) + |rows[i]| <= HeapEnd(rows) <= PAGE_SIZE
  {
    hide Heap;
    WrittenSpace(rows);
    HeapRow(rows, i);
  }

  lemma RowBytes(index: nat, pageType: nat, next: nat, word16: nat, rows: seq<Row>, i: nat)
    requires Written(rows) && i < |rows|
    ensures HEAP_START + RowOffset(rows, i) <= PAGE_SIZE
    ensures rows[i] <= DataPage(index, pageType, next, word16, rows)[HEAP_START + RowOffset(rows, i)..]
  {
    hide Heap, DataPage, Written;
    OffsetBound(rows, i);
    HeapRow(rows, i);
    var page := DataPage(index, pageType, next, word16, rows);
    var off, len := RowOffset(rows, i), |rows[i]|;
    HeapSlice(index, pageType, next, word16, rows);
    SubSlice(page, HEAP_START, HeapEnd(rows), off, off + len);
    StartsWith(page, HEAP_START + off, len);
  }

  lemma StartsWith(s: bytes, at: nat, n: nat)
    requires at + n <= |s|
    ensures s[at..at + n] <= s[at..]
  {}

  lemma HeapSlice(index: nat, pageType: nat, next: nat, word16: nat, rows: seq<Row>)
    requires Written(rows)
    ensures HeapEnd(rows) <= PAGE_SIZE
    ensures DataPage(index, pageType, next, word16, rows)[HEAP_START..HeapEnd(rows)] == Heap(rows)
  {
    hide Heap, Header, RowIndex, Offsets, Groups, Written;
    EndOfHeap(rows);
  }

  // A finished page gives back exactly its rows, in order.
  lemma PageReads(index: nat, pageType: nat, next: nat, word16: nat, rows: seq<Row>)
    requires Written(rows)
    requires index < U32_LIMIT && pageType < U32_LIMIT && next < U32_LIMIT && word16 < U32_LIMIT
    ensures |Tails(DataPage(index, pageType, next, word16, rows))| == |rows|
    ensures forall i :: 0 <= i < |rows| ==> rows[i] <= Tails(DataPage(index, pageType, next, word16, rows))[i]
  {
    hide DataPage, Written, RowTail;
    HeaderReads(index, pageType, next, word16, rows);
    forall i | 0 <= i < |rows|
      ensures rows[i] <= Tails(DataPage(index, pageType, next, word16, rows))[i]
    {
      RowReads(index, pageType, next, word16, rows, i);
    }
  }

  // The two words that are overwritten in finished pages change nothing else.
  lemma PatchNext(index: nat, pageType: nat, next: nat, word16: nat, rows: seq<Row>, next': nat)
    requires Written(rows)
    ensures Put(DataPage(index, pageType, next, word16, rows), 0x0C, LE32(next'))
      == DataPage(index, pageType, next', word16, rows)
  {
    hide Heap, Offsets, RowIndex, Groups, Counts, LE32;
    PatchLinks(DataPage(index, pageType, next, word16, rows)[24..], index, pageType, next, word16, next', word16);
    LinksFirst(index, pageType, next, word16, rows);
    LinksFirst(index, pageType, next', word16, rows);
  }

  lemma PatchSequence(index: nat, pageType: nat, next: nat, word16: nat, rows: seq<Row>, word16': nat)
    requires Written(rows)
    ensures Put(DataPage(index, pageType, next, word16, rows), 0x10, LE32(word16'))
      == DataPage(index, pageType, next, word16', rows)
  {
    hide Heap, Offsets, RowIndex, Groups, Counts, LE32;
    PatchLinks(DataPage(index, pageType, next, word16, rows)[24..], index, pageType, next, word16, next, word16');
    LinksFirst(index, pageType, next, word16, rows);
    LinksFirst(index, pageType, next, word16', rows);
  }

  lemma PatchLinks(rest: bytes, index: nat, pageType: nat, next: nat, word16: nat, next': nat, word16': nat)
    ensures Put(Links(index, pageType, next, word16) + rest, 0x0C, LE32(next'))
      == Links(index, pageType, next', word16) + rest
    ensures Put(Links(index, pageType, next, word16) + rest, 0x10, LE32(word16'))
      == Links(index, pageType, next, word16') + rest
  {
    hide LE32;
    var a := Zeros(4) + LE32(index) + LE32(pageType);
    PutMiddle(a, LE32(next), LE32(word16) + Zeros(4) + rest, LE32(next'));
    assert Links(index, pageType, next, word16) + rest == a + LE32(next) + (LE32(word16) + Zeros(4) + rest);
    assert Links(index, pageType, next', word16) + rest == a + LE32(next') + (LE32(word16) + Zeros(4) + rest);
    PutMiddle(a + LE32(next), LE32(word16), Zeros(4) + rest, LE32(word16'));
    assert Links(index, pageType, next, word16) + rest == a + LE32(next) + LE32(word16) + (Zeros(4) + rest);
    assert Links(index, pageType, next, word16') + rest == a + LE32(next) + LE32(word16') + (Zeros(4) + rest);
  }

  // Everything after the links is independent of them.
  lemma LinksFirst(index: nat, pageType: nat, next: nat, word16: nat, rows: seq<Row>)
    requires Written(rows)
    ensures DataPage(index, pageType, next, word16, rows)
         == Links(index, pageType, next, word16) + DataPage(0, pageType, 0, 0, rows)[24..]
  {
    hide Heap, Offsets, RowIndex, Groups, Counts, LE32, Links;
    WrittenSpace(rows);
    var p, q := DataPage(index, pageType, next, word16, rows), DataPage(0, pageType, 0, 0, rows);
    assert p[24..] == q[24..];
    assert p[..24] == Links(index, pageType, next, word16);
  }
}
