// A reader of whole export.pdb files: table pointer, page chain, row index. It knows
// nothing of how the file was written; FileReads shows that it inverts the writer.
module FileReader {
  import opened Bytes
  import opened Page
  import opened PageReader
  import opened Layout

  function PageTotal(file: bytes): nat {
    |file| / PAGE_SIZE
  }

  function PageAt(file: bytes, p: nat): (r: bytes)
    requires p < PageTotal(file)
    ensures |r| == PAGE_SIZE
  {
    file[p * 4096..p * 4096 + 4096]
  }

  // The pages of a chain from p to last, or as many as the file could hold.
  function Chain(file: bytes, p: nat, last: nat, fuel: nat): seq<nat>
    decreases fuel
  {
    if fuel == 0 || p >= PageTotal(file) then []
    else if p == last then [p]
    else [p] + Chain(file, NextOf(PageAt(file, p)), last, fuel - 1)
  }

  // The rows found on a page; index pages hold none.
  function RowsOnPage(file: bytes, p: nat): seq<bytes> {
    if p >= PageTotal(file) || IsIndexPage(PageAt(file, p)) then [] else Tails(PageAt(file, p))
  }

  function RowsOn(file: bytes, chain: seq<nat>): seq<bytes> {
    if chain == [] then [] else RowsOnPage(file, chain[0]) + RowsOn(file, chain[1..])
  }

  function PointerAt(t: nat): nat { 28 + 16 * t }

  function TableTypeOf(file: bytes, t: nat): nat
    requires PageTotal(file) >= 1 && t < TABLE_COUNT
  {
    Get32(PageAt(file, 0), PointerAt(t))
  }

  function EmptyCandidateOf(file: bytes, t: nat): nat
    requires PageTotal(file) >= 1 && t < TABLE_COUNT
  {
    Get32(PageAt(file, 0), PointerAt(t) + 4)
  }

  function FirstPageOf(file: bytes, t: nat): nat
    requires PageTotal(file) >= 1 && t < TABLE_COUNT
  {
    Get32(PageAt(file, 0), PointerAt(t) + 8)
  }

  function LastPageOf(file: bytes, t: nat): nat
    requires PageTotal(file) >= 1 && t < TABLE_COUNT
  {
    Get32(PageAt(file, 0), PointerAt(t) + 12)
  }

  function TableChain(file: bytes, t: nat): seq<nat>
    requires PageTotal(file) >= 1 && t < TABLE_COUNT
  {
    Chain(file, FirstPageOf(file, t), LastPageOf(file, t), PageTotal(file))
  }

  // Everything read for table t: for each row, the bytes from its start on.
  function ReadTable(file: bytes, t: nat): seq<bytes>
    requires PageTotal(file) >= 1 && t < TABLE_COUNT
  {
    RowsOn(file, TableChain(file, t))
  }

  // Each row is a prefix of what was read in its place, and nothing else was read.
  predicate Recovers(tails: seq<bytes>, rows: seq<Row>) {
    |tails| == |rows| && forall i :: 0 <= i < |rows| ==> rows[i] <= tails[i]
  }

  lemma RecoversAppend(tails: seq<bytes>, rows: seq<Row>, tails': seq<bytes>, rows': seq<Row>)
    requires Recovers(tails, rows) && Recovers(tails', rows')
    ensures Recovers(tails + tails', rows + rows')
  {}

  // ---- Flattening pages into a file ---------------------------------------------------

  predicate PageSized(pages: seq<bytes>) {
    forall p :: 0 <= p < |pages| ==> |pages[p]| == PAGE_SIZE
  }

  lemma {:induction false} FlatLength(pages: seq<bytes>)
    requires PageSized(pages)
    ensures |Concat(pages)| == 4096 * |pages|
  {
    if pages != [] { FlatLength(pages[1..]); }
  }

  lemma FlatPages(pages: seq<bytes>)
    requires PageSized(pages)
    ensures PageTotal(Concat(pages)) == |pages|
    ensures forall p :: 0 <= p < |pages| ==> PageAt(Concat(pages), p) == pages[p]
  {
    FlatLength(pages);
    forall p | 0 <= p < |pages|
      ensures PageAt(Concat(pages), p) == pages[p]
    {
      FlatLength(pages[..p]);
      ConcatPart(pages, p);
    }
  }

  lemma PageInPlace(pages: seq<bytes>, tables: Tables, t: nat, chainEnd: nat, p: nat)
    requires t < |tables| && AllFit(tables[t]) && TableInPlace(pages, tables, t, chainEnd)
    requires Start(tables, t) <= p < Start(tables, t + 1)
    ensures pages[p] == TablePages(Start(tables, t), t, FirstSequence(tables, t), chainEnd,
      tables[t])[p - Start(tables, t)]
    ensures |pages[p]| == PAGE_SIZE
  {
    hide TablePages, FirstSequence;
    assert pages[p] == pages[Start(tables, t)..Start(tables, t + 1)][p - Start(tables, t)];
  }

  lemma ImagePageSized(pages: seq<bytes>, tables: Tables, trackCount: nat)
    requires |tables| == TABLE_COUNT && AllTablesFit(tables) && FileImage(pages, tables, trackCount)
    ensures PageSized(pages)
  {
    hide HeaderPage, TablePages, FirstSequence, TableInPlace, Phantom, Start;
    forall p | 0 <= p < |pages|
      ensures |pages[p]| == PAGE_SIZE
    {
      if p > 0 {
        EveryPageHasATable(tables, TABLE_COUNT, p);
        var t :| 0 <= t < TABLE_COUNT && Start(tables, t) <= p < Start(tables, t + 1);
        PageInPlace(pages, tables, t, Phantom(tables, t), p);
      } else {
        assert pages[0] == HeaderPage(tables, trackCount);
      }
    }
  }

  // ---- The header page ------------------------------------------------------------------

  lemma {:induction false} PointerSlice(tables: Tables, n: nat, t: nat)
    requires t < n <= |tables|
    ensures TablePointers(tables, n)[16 * t..16 * t + 16] == TablePointer(tables, t)
  {
    hide TablePointer;
    if t < n - 1 {
      PointerSlice(tables, n - 1, t);
      assert TablePointers(tables, n)[16 * t..16 * t + 16] == TablePointers(tables, n - 1)[16 * t..16 * t + 16];
    }
  }

  // The header's fields and every table pointer read back.
  lemma HeaderPageReads(tables: Tables, trackCount: nat, t: nat)
    requires |tables| == TABLE_COUNT && FitsCounters(tables) && t < TABLE_COUNT
    ensures var page := HeaderPage(tables, trackCount);
      && Get32(page, PointerAt(t)) == t
      && Get32(page, PointerAt(t) + 4) == EmptyCandidate(tables, t)
      && Get32(page, PointerAt(t) + 8) == Start(tables, t)
      && Get32(page, PointerAt(t) + 12) == LastPage(tables, t)
  {
    hide TablePointers, HeaderFields, EmptyCandidate, Start, LastPage, LE32, Get32, NextUnused, FirstSequence;
    var page := HeaderPage(tables, trackCount);
    PointerSlice(tables, TABLE_COUNT, t);
    var at := PointerAt(t);
    var pointer := TablePointer(tables, t);
    assert page[28..28 + 320] == TablePointers(tables, TABLE_COUNT);
    SubSlice(page, 28, 348, 16 * t, 16 * t + 16);
    assert page[at..at + 16] == pointer;
    SubSlice(page, at, at + 16, 0, 4);
    SubSlice(page, at, at + 16, 4, 8);
    SubSlice(page, at, at + 16, 8, 12);
    SubSlice(page, at, at + 16, 12, 16);
    PointerBounds(tables, t);
    assert pointer[0..4] == LE32(t) && pointer[4..8] == LE32(EmptyCandidate(tables, t));
    assert pointer[8..12] == LE32(Start(tables, t)) && pointer[12..16] == LE32(LastPage(tables, t));
    ReadLE32(page, at, t);
    ReadLE32(page, at + 4, EmptyCandidate(tables, t));
    ReadLE32(page, at + 8, Start(tables, t));
    ReadLE32(page, at + 12, LastPage(tables, t));
  }

  lemma PointerBounds(tables: Tables, t: nat)
    requires FitsCounters(tables) && t < |tables|
    ensures Start(tables, t) <= LastPage(tables, t) < PageCount(tables) <= NextUnused(tables)
    ensures EmptyCandidate(tables, t) < U32_LIMIT
  {
    StartGrows(tables, t, |tables|);
    DataTablesGrow(tables, t, |tables|);
  }

  lemma HeaderFieldsRead(tables: Tables, trackCount: nat)
    requires |tables| == TABLE_COUNT && FitsCounters(tables)
    requires trackCount < U32_LIMIT && FirstSequence(tables, TABLE_COUNT) < U32_LIMIT
    ensures var page := HeaderPage(tables, trackCount);
      && Get32(page, 4) == PAGE_SIZE
      && Get32(page, 8) == TABLE_COUNT
      && Get32(page, 12) == NextUnused(tables)
      && Get32(page, 16) == trackCount
      && Get32(page, 20) == FirstSequence(tables, TABLE_COUNT)
      && Get24(page, 24) == 0
  {
    hide TablePointers, Start, LE32, Get32, NextUnused, FirstSequence;
    var page := HeaderPage(tables, trackCount);
    var fields := HeaderFields(TABLE_COUNT, NextUnused(tables), trackCount, FirstSequence(tables, TABLE_COUNT));
    assert page[0..28] == fields;
    SubSlice(page, 0, 28, 4, 8);
    SubSlice(page, 0, 28, 8, 12);
    SubSlice(page, 0, 28, 12, 16);
    SubSlice(page, 0, 28, 16, 20);
    SubSlice(page, 0, 28, 20, 24);
    ReadLE32(page, 4, PAGE_SIZE);
    ReadLE32(page, 8, TABLE_COUNT);
    ReadLE32(page, 12, NextUnused(tables));
    ReadLE32(page, 16, trackCount);
    ReadLE32(page, 20, FirstSequence(tables, TABLE_COUNT));
    assert fields[24] == 0 && fields[25] == 0 && fields[26] == 0;
    assert page[24] == page[0..28][24] && page[25] == page[0..28][25] && page[26] == page[0..28][26];
  }

  lemma IndexPageReads(index: nat, pageType: nat, dataPage: nat, hasData: bool)
    requires index + 1 < U32_LIMIT
    ensures var page := IndexPage(index, pageType, dataPage, hasData);
      && PageIndexOf(page) == index && NextOf(page) == index + 1
      && IsIndexPage(page) && Get24(page, 24) == 0
  {
    hide IndexHead, IndexEntries, LE32, Get32;
    var page := IndexPage(index, pageType, dataPage, hasData);
    var links := IndexLinks(index);
    assert page[0..32] == links;
    SubSlice(page, 0, 32, 4, 8);
    SubSlice(page, 0, 32, 12, 16);
    ReadLE32(page, 4, index);
    ReadLE32(page, 12, index + 1);
    assert links[24] == 0 && links[25] == 0 && links[26] == 0 && links[27] == 0x64;
    assert page[24] == links[24] && page[25] == links[25] && page[26] == links[26] && page[27] == links[27];
  }

  // A page is made of four parts; each field is read from its own part.
  lemma IndexParts(index: nat, pageType: nat, dataPage: nat, hasData: bool)
    ensures var page := IndexPage(index, pageType, dataPage, hasData);
      && page[0..32] == IndexLinks(index)
      && page[32..60] == IndexHead(index, IsIndexed(pageType), if hasData then dataPage else EMPTY_TABLE_MARKER)
      && page[60..4076] == IndexEntries(pageType) && page[4076..4096] == Zeros(20)
  {
    hide IndexLinks, IndexHead, IndexEntries;
  }

  lemma WordIn(page: bytes, from: nat, part: bytes, at: nat, x: nat)
    requires from + |part| <= |page| && page[from..from + |part|] == part
    requires at + 4 <= |part| && part[at..at + 4] == LE32(x) && x < U32_LIMIT
    ensures Get32(page, from + at) == x
  {
    hide LE32, Get32;
    SubSlice(page, from, from + |part|, at, at + 4);
    ReadLE32(page, from + at, x);
  }

  lemma HalfWordIn(page: bytes, from: nat, part: bytes, at: nat, x: nat)
    requires from + |part| <= |page| && page[from..from + |part|] == part
    requires at + 2 <= |part| && part[at..at + 2] == LE16(x) && x < U16_LIMIT
    ensures Get16(page, from + at) == x
  {
    hide LE16, Get16;
    SubSlice(page, from, from + |part|, at, at + 2);
    ReadLE16(page, from + at, x);
  }

  // What an index page says besides its number: half its number, the page of its data or
  // the marker of an empty table, and for tracks and history that it holds one entry.
  lemma IndexPageSays(index: nat, pageType: nat, dataPage: nat, hasData: bool)
    requires index + 1 < U32_LIMIT && dataPage < U32_LIMIT
    ensures var page, indexed := IndexPage(index, pageType, dataPage, hasData), pageType in {0, 19};
      && Get32(page, 8) == index / 2 && Get32(page, 16) == 1 && page[0..4] == Zeros(4) && page[20..27] == Zeros(7)
      && Get32(page, 32) == (if indexed then 1 else 0x1FFF_1FFF) && Get16(page, 36) == 0x3EC
      && Get16(page, 38) == Get16(page, 56) == (if indexed then 1 else 0)
      && Get32(page, 40) == index && Get32(page, 44) == (if hasData then dataPage else 0x3FF_FFFF)
      && Get32(page, 48) == 0x3FF_FFFF && Get32(page, 52) == 0 && Get16(page, 58) == 0x1FFF
      && page[28..32] == Zeros(4) && page[4076..4096] == Zeros(20)
  {
    hide IndexPage, IndexLinks, IndexHead, IndexEntries, Get32, Get16, LE32, LE16;
    var page, links := IndexPage(index, pageType, dataPage, hasData), IndexLinks(index);
    var next := if hasData then dataPage else EMPTY_TABLE_MARKER;
    var head := IndexHead(index, IsIndexed(pageType), next);
    IndexParts(index, pageType, dataPage, hasData);
    LinkWords(index);
    HeadWords(index, IsIndexed(pageType), next);
    WordIn(page, 0, links, 8, index / 2);
    WordIn(page, 0, links, 16, 1);
    SubSlice(page, 0, 32, 0, 4);
    SubSlice(page, 0, 32, 20, 27);
    SubSlice(page, 0, 32, 28, 32);
    WordIn(page, 32, head, 0, if IsIndexed(pageType) then 1 else 0x1FFF_1FFF);
    HalfWordIn(page, 32, head, 4, 0x3EC);
    HalfWordIn(page, 32, head, 6, if IsIndexed(pageType) then 1 else 0);
    WordIn(page, 32, head, 8, index);
    WordIn(page, 32, head, 12, next);
    WordIn(page, 32, head, 16, 0x3FF_FFFF);
    WordIn(page, 32, head, 20, 0);
    HalfWordIn(page, 32, head, 24, if IsIndexed(pageType) then 1 else 0);
    HalfWordIn(page, 32, head, 26, 0x1FFF);
  }

  lemma LinkWords(index: nat)
    ensures var p := IndexLinks(index);
      && p[8..12] == LE32(index / 2) && p[16..20] == LE32(1)
      && p[0..4] == Zeros(4) && p[20..27] == Zeros(7) && p[28..32] == Zeros(4)
  {
    hide LE32;
  }

  lemma HeadWords(index: nat, indexed: bool, next: nat)
    ensures var p := IndexHead(index, indexed, next);
      && p[0..4] == LE32(if indexed then 1 else 0x1FFF_1FFF) && p[4..6] == LE16(0x3EC)
      && p[6..8] == p[24..26] == LE16(if indexed then 1 else 0) && p[8..12] == LE32(index)
      && p[12..16] == LE32(next) && p[16..20] == LE32(0x3FF_FFFF) && p[20..24] == LE32(0)
      && p[26..28] == LE16(0x1FFF)
  {
    hide LE32, LE16;
    ZeroBytes();
  }

  lemma ZeroBytes()
    ensures LE32(0) == Zeros(4)
  {}

  // The room for index entries holds the fill word throughout, but for the one entry that
  // the index pages of tracks and history have.
  lemma IndexEntriesSay(index: nat, pageType: nat, dataPage: nat, hasData: bool, k: nat)
    requires k < 1004
    ensures Get32(IndexPage(index, pageType, dataPage, hasData), 60 + 4 * k)
      == if k == 0 && pageType == 0 then 19 else if k == 0 && pageType == 19 then 323 else 0x1FFF_FFF8
  {
    hide IndexPage, IndexLinks, IndexHead, IndexEntries, Get32, LE32;
    IndexParts(index, pageType, dataPage, hasData);
    EntryWord(pageType, k);
    var x := if k == 0 && pageType == 0 then 19 else if k == 0 && pageType == 19 then 323 else 0x1FFF_FFF8;
    WordIn(IndexPage(index, pageType, dataPage, hasData), 60, IndexEntries(pageType), 4 * k, x);
  }

  lemma EntryWord(pageType: nat, k: nat)
    requires k < 1004
    ensures IndexEntries(pageType)[4 * k..4 * k + 4]
      == LE32(if k == 0 && pageType == 0 then 19 else if k == 0 && pageType == 19 then 323 else 0x1FFF_FFF8)
  {
    hide LE32, Fill;
    if pageType in {0, 19} {
      if k > 0 {
        FillWord(1003, k - 1);
        var e := LE32(if pageType == 0 then 19 else 323);
        assert (e + Fill(1003))[4 * k..4 * k + 4] == Fill(1003)[4 * (k - 1)..4 * (k - 1) + 4];
      }
    } else {
      FillWord(1004, k);
    }
  }

  lemma {:induction false} FillWord(n: nat, k: nat)
    requires k < n
    ensures Fill(n)[4 * k..4 * k + 4] == LE32(0x1FFF_FFF8)
  {
    hide LE32;
    if k < n - 1 {
      FillWord(n - 1, k);
      assert (Fill(n - 1) + LE32(0x1FFF_FFF8))[4 * k..4 * k + 4] == Fill(n - 1)[4 * k..4 * k + 4];
    }
  }

  // What the header page does not say is zero.
  lemma HeaderPadding(tables: Tables, trackCount: nat)
    requires |tables| == TABLE_COUNT
    ensures var page := HeaderPage(tables, trackCount);
      page[0..4] == Zeros(4) && page[24..28] == Zeros(4) && page[348..4096] == Zeros(3748)
  {
    hide TablePointers, LE32, NextUnused, FirstSequence;
    var page := HeaderPage(tables, trackCount);
    var fields := HeaderFields(TABLE_COUNT, NextUnused(tables), trackCount, FirstSequence(tables, TABLE_COUNT));
    assert page[0..28] == fields && fields[0..4] == Zeros(4) && fields[24..28] == Zeros(4);
    SubSlice(page, 0, 28, 0, 4);
    SubSlice(page, 0, 28, 24, 28);
  }

  // ---- Reading a built file ------------------------------------------------------------

  function Consecutive(from: nat, n: nat): (r: seq<nat>)
    ensures |r| == n && forall k :: 0 <= k < n ==> r[k] == from + k
    decreases n
  {
    if n == 0 then [] else [from] + Consecutive(from + 1, n - 1)
  }

  // The data pages of a table whose index page is at start.
  predicate DataPagesAt(file: bytes, start: nat, pageType: nat, sequence: nat, chainEnd: nat, groups: seq<seq<Row>>) {
    && AllWritten(groups)
    && start + |groups| < PageTotal(file)
    && forall k :: 0 <= k < |groups| ==>
        PageAt(file, start + 1 + k)
        == DataPage(start + 1 + k, pageType, NextPage(start + 1, k, |groups|, chainEnd), sequence + k, groups[k])
  }

  lemma DataPageReads(file: bytes, start: nat, pageType: nat, sequence: nat, chainEnd: nat, groups: seq<seq<Row>>,
                      j: nat)
    requires DataPagesAt(file, start, pageType, sequence, chainEnd, groups) && j < |groups|
    requires pageType < U32_LIMIT && start + 1 + |groups| < U32_LIMIT && chainEnd < U32_LIMIT
    requires sequence + |groups| < U32_LIMIT
    ensures var page := PageAt(file, start + 1 + j);
      && PageIndexOf(page) == start + 1 + j && TypeOf(page) == pageType
      && NextOf(page) == NextPage(start + 1, j, |groups|, chainEnd)
      && SequenceOf(page) == sequence + j
      && !IsIndexPage(page)
      && Get24(page, 24) == PackedCounts(|groups[j]|)
      && Recovers(Tails(page), groups[j])
  {
    hide DataPagesAt, DataPage, Written, PageAt, PageTotal, NextPage, PackedCounts, Tails, IsIndexPage,
         PageIndexOf, TypeOf, NextOf, SequenceOf, Get24, Recovers;
    NextBound(start + 1, j, |groups|, chainEnd);
    PageOfGroup(file, start, pageType, sequence, chainEnd, groups, j);
    FinishedPageReads(start + 1 + j, pageType, NextPage(start + 1, j, |groups|, chainEnd), sequence + j, groups[j]);
  }

  lemma PageOfGroup(file: bytes, start: nat, pageType: nat, sequence: nat, chainEnd: nat, groups: seq<seq<Row>>,
                    j: nat)
    requires DataPagesAt(file, start, pageType, sequence, chainEnd, groups) && j < |groups|
    ensures start + 1 + j < PageTotal(file) && Written(groups[j])
    ensures PageAt(file, start + 1 + j)
      == DataPage(start + 1 + j, pageType, NextPage(start + 1, j, |groups|, chainEnd), sequence + j, groups[j])
  {
    hide DataPage, Written, PageAt, PageTotal, NextPage;
  }

  // All that a finished page gives back.
  lemma FinishedPageReads(index: nat, pageType: nat, next: nat, word16: nat, rows: seq<Row>)
    requires Written(rows)
    requires index < U32_LIMIT && pageType < U32_LIMIT && next < U32_LIMIT && word16 < U32_LIMIT
    ensures var page := DataPage(index, pageType, next, word16, rows);
      && PageIndexOf(page) == index && TypeOf(page) == pageType && NextOf(page) == next && SequenceOf(page) == word16
      && !IsIndexPage(page) && Get24(page, 24) == PackedCounts(|rows|) && Recovers(Tails(page), rows)
  {
    hide DataPage, Written, PackedCounts, DataFlags, IsIndexPage, PageIndexOf, TypeOf, NextOf, SequenceOf,
         Get16, Get24, RowTail;
    HeaderReads(index, pageType, next, word16, rows);
    PageReads(index, pageType, next, word16, rows);
  }

  lemma NextBound(first: nat, j: nat, n: nat, chainEnd: nat)
    requires first + n < U32_LIMIT && chainEnd < U32_LIMIT
    ensures NextPage(first, j, n, chainEnd) < U32_LIMIT
  {}

  // Following next_page from data page j visits the pages after it one by one.
  lemma {:induction false} DataChain(file: bytes, start: nat, pageType: nat, sequence: nat, chainEnd: nat,
                                     groups: seq<seq<Row>>, j: nat, fuel: nat)
    requires DataPagesAt(file, start, pageType, sequence, chainEnd, groups) && j < |groups| && fuel >= |groups| - j
    requires pageType < U32_LIMIT && start + 1 + |groups| < U32_LIMIT && chainEnd < U32_LIMIT
    requires sequence + |groups| < U32_LIMIT
    ensures Chain(file, start + 1 + j, start + |groups|, fuel) == Consecutive(start + 1 + j, |groups| - j)
    decreases |groups| - j
  {
    hide DataPagesAt, Tails, IsIndexPage, PageAt, NextOf, PageTotal, Recovers, PackedCounts, Get24, TypeOf,
         SequenceOf, PageIndexOf;
    InFile(file, start, pageType, sequence, chainEnd, groups);
    DataPageReads(file, start, pageType, sequence, chainEnd, groups, j);
    if j + 1 < |groups| {
      DataChain(file, start, pageType, sequence, chainEnd, groups, j + 1, fuel - 1);
    }
  }

  // The pages from data page j on hold exactly the rows of groups j, j+1, ...
  lemma {:induction false} DataRowsRead(file: bytes, start: nat, pageType: nat, sequence: nat, chainEnd: nat,
                                        groups: seq<seq<Row>>, j: nat)
    requires DataPagesAt(file, start, pageType, sequence, chainEnd, groups) && j <= |groups|
    requires pageType < U32_LIMIT && start + 1 + |groups| < U32_LIMIT && chainEnd < U32_LIMIT
    requires sequence + |groups| < U32_LIMIT
    ensures Recovers(RowsOn(file, Consecutive(start + 1 + j, |groups| - j)), Flatten(groups[j..]))
    decreases |groups| - j
  {
    hide DataPagesAt, Recovers, RowsOnPage, RowsOn, Flatten, Consecutive;
    if j == |groups| {
      NothingLeft(file, start + 1 + j, groups);
    } else {
      var p := start + 1 + j;
      PageRowsRead(file, start, pageType, sequence, chainEnd, groups, j);
      DataRowsRead(file, start, pageType, sequence, chainEnd, groups, j + 1);
      RowsOnStep(file, p, |groups| - j);
      FlattenStep(groups, j);
      RecoversAppend(RowsOnPage(file, p), groups[j], RowsOn(file, Consecutive(p + 1, |groups| - j - 1)),
        Flatten(groups[j + 1..]));
    }
  }

  lemma NothingLeft(file: bytes, p: nat, groups: seq<seq<Row>>)
    ensures Recovers(RowsOn(file, Consecutive(p, 0)), Flatten(groups[|groups|..]))
  {}

  lemma PageRowsRead(file: bytes, start: nat, pageType: nat, sequence: nat, chainEnd: nat, groups: seq<seq<Row>>,
                     j: nat)
    requires DataPagesAt(file, start, pageType, sequence, chainEnd, groups) && j < |groups|
    requires pageType < U32_LIMIT && start + 1 + |groups| < U32_LIMIT && chainEnd < U32_LIMIT
    requires sequence + |groups| < U32_LIMIT
    ensures Recovers(RowsOnPage(file, start + 1 + j), groups[j])
  {
    hide DataPagesAt, Recovers, PageAt, PageTotal, Tails, IsIndexPage;
    InFile(file, start, pageType, sequence, chainEnd, groups);
    DataPageReads(file, start, pageType, sequence, chainEnd, groups, j);
  }

  lemma RowsOnStep(file: bytes, p: nat, n: nat)
    requires n > 0
    ensures RowsOn(file, Consecutive(p, n)) == RowsOnPage(file, p) + RowsOn(file, Consecutive(p + 1, n - 1))
  {
    hide RowsOnPage;
    assert Consecutive(p, n)[1..] == Consecutive(p + 1, n - 1);
  }

  lemma FlattenStep(groups: seq<seq<Row>>, j: nat)
    requires j < |groups|
    ensures Flatten(groups[j..]) == groups[j] + Flatten(groups[j + 1..])
  {
    assert groups[j..][1..] == groups[j + 1..];
  }

  lemma InFile(file: bytes, start: nat, pageType: nat, sequence: nat, chainEnd: nat, groups: seq<seq<Row>>)
    requires DataPagesAt(file, start, pageType, sequence, chainEnd, groups)
    ensures start + |groups| < PageTotal(file)
  {}

  // Table t of a built file, as the reader finds it.
  lemma TableAt(pages: seq<bytes>, tables: Tables, trackCount: nat, t: nat)
    requires |tables| == TABLE_COUNT && AllTablesFit(tables) && FileImage(pages, tables, trackCount) && t < TABLE_COUNT
    ensures var file := Concat(pages);
      && PageTotal(file) == PageCount(tables) >= 1
      && PageAt(file, 0) == HeaderPage(tables, trackCount)
      && Start(tables, t) + |DataGroups(tables[t])| < PageCount(tables) && Start(tables, t) + 1 < PageCount(tables)
      && PageAt(file, Start(tables, t)) == IndexPage(Start(tables, t), t, Start(tables, t) + 1, tables[t] != [])
      && (tables[t] == [] ==> PageAt(file, Start(tables, t) + 1) == Zeros(PAGE_SIZE))
      && (tables[t] != [] ==>
          DataPagesAt(file, Start(tables, t), t, FirstSequence(tables, t), Phantom(tables, t), DataGroups(tables[t])))
  {
    hide HeaderPage, IndexPage, PageAt, PageTotal, FirstSequence, Phantom, DataGroups, TablePages,
         TableInPlace, DataPagesAt, Concat, PageSized;
    ImagePageSized(pages, tables, trackCount);
    FlatPages(pages);
    StartGrows(tables, t, TABLE_COUNT);
    GroupCount(tables[t]);
    var start, chainEnd := Start(tables, t), Phantom(tables, t);
    assert TableInPlace(pages, tables, t, chainEnd);
    PageInPlace(pages, tables, t, chainEnd, start);
    PageInPlace(pages, tables, t, chainEnd, start + 1);
    IndexPageFirst(start, t, FirstSequence(tables, t), chainEnd, tables[t]);
    if tables[t] != [] {
      DataPagesInPlace(Concat(pages), pages, tables, t, chainEnd);
    }
  }

  lemma IndexPageFirst(start: nat, pageType: nat, sequence: nat, chainEnd: nat, rows: seq<Row>)
    requires AllFit(rows)
    ensures var table := TablePages(start, pageType, sequence, chainEnd, rows);
      && table[0] == IndexPage(start, pageType, start + 1, rows != [])
      && (rows == [] ==> table[1] == Zeros(PAGE_SIZE))
  {
    hide IndexPage, DataGroups, DataPagesOf;
  }

  lemma DataPageOf(start: nat, pageType: nat, sequence: nat, chainEnd: nat, rows: seq<Row>, k: nat)
    requires AllFit(rows) && rows != [] && k < |DataGroups(rows)|
    ensures AllWritten(DataGroups(rows))
    ensures TablePages(start, pageType, sequence, chainEnd, rows)[1 + k]
         == DataPage(start + 1 + k, pageType, NextPage(start + 1, k, |DataGroups(rows)|, chainEnd), sequence + k,
           DataGroups(rows)[k])
  {
    hide IndexPage, DataGroups, DataPage, NextPage, Written;
    DataGroupsKeep(rows);
    var pages := DataPagesOf(start + 1, pageType, sequence, chainEnd, DataGroups(rows));
    assert TablePages(start, pageType, sequence, chainEnd, rows)[1 + k] == pages[k];
  }

  lemma DataPagesInPlace(file: bytes, pages: seq<bytes>, tables: Tables, t: nat, chainEnd: nat)
    requires t < |tables| && AllFit(tables[t]) && TableInPlace(pages, tables, t, chainEnd) && tables[t] != []
    requires PageTotal(file) == |pages| && forall p :: 0 <= p < |pages| ==> PageAt(file, p) == pages[p]
    ensures DataPagesAt(file, Start(tables, t), t, FirstSequence(tables, t), chainEnd, DataGroups(tables[t]))
  {
    hide TablePages, PageAt, PageTotal, FirstSequence, DataGroups, DataPage, NextPage, TableInPlace, Written,
         Start, AllFit, AllWritten;
    var start, sequence, groups := Start(tables, t), FirstSequence(tables, t), DataGroups(tables[t]);
    DataGroupsKeep(tables[t]);
    AllWrittenMeans(groups);
    TableEnd(pages, tables, t, chainEnd);
    forall k | 0 <= k < |groups|
      ensures PageAt(file, start + 1 + k)
           == DataPage(start + 1 + k, t, NextPage(start + 1, k, |groups|, chainEnd), sequence + k, groups[k])
    {
      PageInPlace(pages, tables, t, chainEnd, start + 1 + k);
      DataPageOf(start, t, sequence, chainEnd, tables[t], k);
    }
  }

  lemma AllWrittenMeans(groups: seq<seq<Row>>)
    requires AllWritten(groups)
    ensures forall k :: 0 <= k < |groups| ==> Written(groups[k])
  {}

  lemma GroupCount(rows: seq<Row>)
    ensures |DataGroups(rows)| == 0 <==> rows == []
    ensures TablePageTotal(rows) == if rows == [] then 1 else |DataGroups(rows)|
  {}

  lemma TableEnd(pages: seq<bytes>, tables: Tables, t: nat, chainEnd: nat)
    requires t < |tables| && AllFit(tables[t]) && TableInPlace(pages, tables, t, chainEnd) && tables[t] != []
    ensures Start(tables, t) + |DataGroups(tables[t])| < |pages|
    ensures Start(tables, t + 1) == Start(tables, t) + 1 + |DataGroups(tables[t])|
  {
    hide TablePages, FirstSequence, DataGroups;
  }

  lemma {:induction false} SequenceBelowStart(tables: Tables, t: nat)
    requires t <= |tables|
    ensures FirstSequence(tables, t) + t <= Start(tables, t) + 1
  {
    if t > 0 { SequenceBelowStart(tables, t - 1); }
  }

  lemma CounterBounds(tables: Tables, t: nat)
    requires FitsCounters(tables) && t < |tables|
    ensures Start(tables, t) + 1 + |DataGroups(tables[t])| < U32_LIMIT
    ensures Start(tables, t) + 2 < U32_LIMIT
    ensures FirstSequence(tables, t) + |DataGroups(tables[t])| < U32_LIMIT
    ensures Phantom(tables, t) < U32_LIMIT
  {
    hide DataGroups, TablePageTotal;
    GroupCount(tables[t]);
    StartGrows(tables, t, |tables|);
    DataTablesGrow(tables, t, |tables|);
    SequenceBelowStart(tables, t + 1);
    if t + 1 < |tables| { StartGrows(tables, t + 1, |tables|); }
  }

  // The chain of a table: its index page, then its data pages in file order. An empty
  // table's chain is its index page alone.
  lemma TableChainIs(pages: seq<bytes>, tables: Tables, trackCount: nat, t: nat)
    requires |tables| == TABLE_COUNT && AllTablesFit(tables) && FileImage(pages, tables, trackCount) && t < TABLE_COUNT
    requires FitsCounters(tables)
    ensures PageTotal(Concat(pages)) >= 1
    ensures TableChain(Concat(pages), t) == Consecutive(Start(tables, t), 1 + |DataGroups(tables[t])|)
  {
    hide HeaderPage, IndexPage, PageAt, PageTotal, DataPagesAt, FirstSequence, Phantom, DataGroups, Get32,
         NextOf, IsIndexPage, PageIndexOf, Get24, FileImage, Start, EmptyCandidate, TablePageTotal,
         FitsCounters;
    TableAt(pages, tables, trackCount, t);
    HeaderPageReads(tables, trackCount, t);
    CounterBounds(tables, t);
    var start, groups := Start(tables, t), DataGroups(tables[t]);
    IndexPageReads(start, t, start + 1, tables[t] != []);
    GroupCount(tables[t]);
    if tables[t] != [] {
      DataChain(Concat(pages), start, t, FirstSequence(tables, t), Phantom(tables, t), groups, 0,
        PageTotal(Concat(pages)) - 1);
    }
  }

  // The main theorem about the file format: from the bytes of a built file, following
  // table pointer, page chain and row index recovers every table's rows, in order, none
  // lost, none duplicated.
  lemma FileReads(pages: seq<bytes>, tables: Tables, trackCount: nat, t: nat)
    requires |tables| == TABLE_COUNT && AllTablesFit(tables) && FileImage(pages, tables, trackCount) && t < TABLE_COUNT
    requires FitsCounters(tables)
    ensures PageTotal(Concat(pages)) >= 1
    ensures Recovers(ReadTable(Concat(pages), t), tables[t])
  {
    hide HeaderPage, IndexPage, PageAt, PageTotal, DataPagesAt, FirstSequence, Phantom, DataGroups, Get32,
         NextOf, IsIndexPage, PageIndexOf, Get24, TableChain, Recovers, Start, RowsOn, Tails, FileImage,
         TablePageTotal, FitsCounters, Consecutive, Flatten, AllWritten;
    TableChainIs(pages, tables, trackCount, t);
    TableAt(pages, tables, trackCount, t);
    CounterBounds(tables, t);
    var file, start, groups := Concat(pages), Start(tables, t), DataGroups(tables[t]);
    IndexPageReads(start, t, start + 1, tables[t] != []);
    DataGroupsKeep(tables[t]);
    assert RowsOnPage(file, start) == [];
    if tables[t] == [] {
      EmptyTableRead(file, start, groups);
    } else {
      DataRowsRead(file, start, t, FirstSequence(tables, t), Phantom(tables, t), groups, 0);
      assert groups[0..] == groups;
      RowsAfterEmptyPage(file, start, |groups|);
    }
  }

  lemma RowsAfterEmptyPage(file: bytes, start: nat, n: nat)
    requires RowsOnPage(file, start) == []
    ensures RowsOn(file, Consecutive(start, 1 + n)) == RowsOn(file, Consecutive(start + 1, n))
  {
    hide RowsOnPage;
    assert Consecutive(start, 1 + n)[1..] == Consecutive(start + 1, n);
  }

  lemma EmptyTableRead(file: bytes, start: nat, groups: seq<seq<Row>>)
    requires RowsOnPage(file, start) == [] && groups == DataGroups([])
    ensures Recovers(RowsOn(file, Consecutive(start, 1 + |groups|)), [])
  {
    hide RowsOnPage;
    RowsAfterEmptyPage(file, start, 0);
  }
}
