// The writing half of crates/bvault-core/src/pdb.rs and the index and header pages of
// page.rs: pages are built, counted, patched and flattened, table by table.
module PdbWriter {
  import opened Wrappers
  import opened Bytes
  import opened Page
  import opened PageReader
  import opened Layout
  import opened FileReader

  class IndexPageBuilder {
    const data: array<byte>
    const pageIndex: nat
    const pageType: nat

    constructor (pageIndex: nat, pageType: nat)
      ensures this.pageIndex == pageIndex && this.pageType == pageType
      ensures fresh(data) && data.Length == PAGE_SIZE && data[..] == Zeros(PAGE_SIZE)
    {
      this.pageIndex, this.pageType := pageIndex, pageType;
      data := new byte[PAGE_SIZE](_ => 0);
      new;
      assert data[..] == Zeros(PAGE_SIZE);
    }

    method Finalize(dataPage: nat, hasData: bool) returns (page: bytes)
      requires data.Length == PAGE_SIZE && data[..] == Zeros(PAGE_SIZE)
      modifies data
      ensures page == IndexPage(pageIndex, pageType, dataPage, hasData)
    {
      hide IndexLinks, IndexHead, IndexEntries;
      ghost var was := data[..];
      var indexed := IsIndexed(pageType);
      var next := if hasData then dataPage else EMPTY_TABLE_MARKER;
      WriteLinks();
      WriteHead(indexed, next);
      WriteEntries();
      page := data[..];
      Assembled(was, IndexLinks(pageIndex), IndexHead(pageIndex, indexed, next), IndexEntries(pageType));
    }

    method WriteLinks()
      requires data.Length == PAGE_SIZE && forall k :: 0 <= k < 32 ==> data[k] == 0
      modifies data
      ensures data[..] == Put(old(data[..]), 0, IndexLinks(pageIndex))
    {
      hide LE32;
      CopyInto(data, 4, LE32(pageIndex));
      CopyInto(data, 8, LE32(pageIndex / 2));
      CopyInto(data, 12, LE32(pageIndex + 1));
      CopyInto(data, 16, LE32(1));
      data[27] := 0x64;
    }

    method WriteHead(indexed: bool, next: nat)
      requires data.Length == PAGE_SIZE && forall k :: 32 <= k < 60 ==> data[k] == 0
      modifies data
      ensures data[..] == Put(old(data[..]), 32, IndexHead(pageIndex, indexed, next))
    {
      hide LE32, LE16;
      ZeroBytes();
      var active := if indexed then 1 else 0;
      CopyInto(data, 0x20, LE32(if indexed then 1 else 0x1FFF_1FFF));
      CopyInto(data, 0x24, LE16(0x03EC));
      CopyInto(data, 0x26, LE16(active));
      CopyInto(data, 0x28, LE32(pageIndex));
      CopyInto(data, 0x2C, LE32(next));
      CopyInto(data, 0x30, LE32(0x03FF_FFFF));
      CopyInto(data, 0x38, LE16(active));
      CopyInto(data, 0x3A, LE16(0x1FFF));
    }

    method WriteEntries()
      requires data.Length == PAGE_SIZE
      modifies data
      ensures data[..] == Put(old(data[..]), 60, IndexEntries(pageType))
    {
      if IsIndexed(pageType) {
        var entry := LE32(if pageType == TRACKS then 19 else 323);
        ghost var was := data[..];
        CopyInto(data, 0x3C, entry);
        FillFrom(0x40);
        PutAdjacent(was, 0x3C, entry, Fill(1003));
      } else {
        FillFrom(0x3C);
      }
    }

    // The fill pattern from `start` up to the last 20 bytes of the page.
    method FillFrom(start: nat)
      requires data.Length == PAGE_SIZE && start <= 4076 && start % 4 == 0
      modifies data
      ensures data[..] == Put(old(data[..]), start, Fill((4076 - start) / 4))
    {
      hide LE32;
      ghost var was := data[..];
      var i := start;
      while i < PAGE_SIZE - 20
        invariant start <= i <= 4076 && (i - start) % 4 == 0
        invariant data[..] == Put(was, start, Fill((i - start) / 4))
      {
        PutAdjacent(was, start, Fill((i - start) / 4), LE32(0x1FFF_FFF8));
        CopyInto(data, i, LE32(0x1FFF_FFF8));
        i := i + 4;
      }
    }
  }

  lemma Assembled(was: bytes, links: bytes, head: bytes, entries: bytes)
    requires was == Zeros(PAGE_SIZE) && |links| == 32 && |head| == 28 && |entries| == 4016
    ensures Put(Put(Put(was, 0, links), 32, head), 60, entries) == links + head + entries + Zeros(20)
  {}

  // The header page: fixed fields, then one pointer per table.
  method WriteHeaderPage(pointers: seq<bytes>, nextUnused: nat, trackCount: nat, sequence: nat) returns (page: bytes)
    requires |pointers| == TABLE_COUNT && forall t :: 0 <= t < |pointers| ==> |pointers[t]| == 16
    ensures page == HeaderFields(TABLE_COUNT, nextUnused, trackCount, sequence) + Concat(pointers)
      + Zeros(PAGE_SIZE - 28 - 16 * TABLE_COUNT)
  {
    var data := new byte[PAGE_SIZE](_ => 0);
    assert data[..] == Zeros(PAGE_SIZE);
    WriteHeaderFields(data, |pointers|, nextUnused, trackCount, sequence);
    ghost var fields := HeaderFields(TABLE_COUNT, nextUnused, trackCount, sequence);
    ghost var was := data[..];
    assert was == fields + Zeros(PAGE_SIZE - 28);
    var offset := 0x1C;
    for t := 0 to |pointers|
      invariant offset == 28 + 16 * t && |Concat(pointers[..t])| == 16 * t
      invariant data[..] == Put(was, 28, Concat(pointers[..t]))
    {
      PutAdjacent(was, 28, Concat(pointers[..t]), pointers[t]);
      assert pointers[..t + 1] == pointers[..t] + [pointers[t]];
      ConcatSnoc(pointers[..t], pointers[t]);
      CopyInto(data, offset, pointers[t]);
      offset := offset + 16;
    }
    assert pointers[..|pointers|] == pointers;
    PutPrefix(fields, Concat(pointers), PAGE_SIZE - 28);
    page := data[..];
  }

  lemma PutPrefix(a: bytes, src: bytes, n: nat)
    requires |src| <= n
    ensures Put(a + Zeros(n), |a|, src) == a + src + Zeros(n - |src|)
  {
    ZerosSplit(|src|, n - |src|);
    PutAfter(a, Zeros(n), src);
  }

  method WriteHeaderFields(data: array<byte>, tableCount: nat, nextUnused: nat, trackCount: nat, sequence: nat)
    requires data.Length == PAGE_SIZE && data[..] == Zeros(PAGE_SIZE)
    modifies data
    ensures data[..] == HeaderFields(tableCount, nextUnused, trackCount, sequence) + Zeros(PAGE_SIZE - 28)
  {
    CopyInto(data, 4, LE32(PAGE_SIZE));
    CopyInto(data, 8, LE32(tableCount));
    CopyInto(data, 12, LE32(nextUnused));
    CopyInto(data, 16, LE32(trackCount));
    CopyInto(data, 20, LE32(sequence));
  }

  // Finished data pages that still carry their row count where the sequence number goes.
  predicate Unsequenced(pages: seq<bytes>, firstIndex: nat, pageType: nat, groups: seq<seq<Row>>)
    requires AllWritten(groups)
  {
    && |pages| == |groups|
    && forall j :: 0 <= j < |pages| ==>
        pages[j] == DataPage(firstIndex + j, pageType, NextPage(firstIndex, j, |pages|, NO_NEXT), |groups[j]|,
          groups[j])
  }

  // The pagination loop shared by all tables: rows go on the open page until one does not
  // fit; then the page is finished, pointing at the next, and a new one is opened. Fails
  // exactly when some row is longer than an empty page takes.
  method BuildDataPages(rows: seq<Row>, pageType: nat, firstIndex: nat)
    returns (r: Result<seq<bytes>, PageError>, nextIndex: nat)
    requires rows != []
    ensures r.Success? <==> AllFit(rows)
    ensures r.Success? ==> AllWritten(DataGroups(rows)) && nextIndex == firstIndex + |r.value|
    ensures r.Success? ==> Unsequenced(r.value, firstIndex, pageType, DataGroups(rows))
  {
    hide DataPage, Heap, Offsets, Unfinished, Pack, Written, AllFit, Closed, Packing, Fits, Unsequenced;
    NothingPacked(rows, firstIndex, pageType);
    var pages: seq<bytes> := [];
    var current := new PageBuilder(firstIndex, pageType);
    nextIndex := firstIndex + 1;
    ghost var closed: seq<seq<Row>> := [];
    for i := 0 to |rows|
      invariant current.Valid() && fresh(current) && fresh(current.data)
      invariant current.pageType == pageType && current.pageIndex == firstIndex + |pages|
      invariant nextIndex == current.pageIndex + 1
      invariant Closed(pages, firstIndex, pageType, closed)
      invariant Packing(closed, current.rows, rows, i)
    {
      var row := rows[i];
      PackingStep(closed, current.rows, rows, i);
      if current.Overflows(|row|) {
        assert !Fits(current.rows, row) by { FitsIs(current.rows, row); }
        var page := current.Finalize(nextIndex);
        ClosedSnoc(pages, firstIndex, pageType, closed, page, current.rows);
        pages := pages + [page];
        closed := closed + [current.rows];
        current := new PageBuilder(nextIndex, pageType);
        nextIndex := nextIndex + 1;
      } else {
        assert Fits(current.rows, row) by { FitsIs(current.rows, row); }
      }
      var written := current.WriteRow(row);
      if written.Failure? {
        return Failure(written.error), nextIndex;
      }
    }
    var page := current.Finalize(NO_NEXT);
    PackingEnds(closed, current.rows, rows);
    LastClosed(pages, firstIndex, pageType, closed, page, current.rows);
    r := Success(pages + [page]);
  }

  // Finished pages, each continuing to the next page number.
  predicate Closed(pages: seq<bytes>, firstIndex: nat, pageType: nat, groups: seq<seq<Row>>) {
    && AllWritten(groups) && |pages| == |groups|
    && forall j :: 0 <= j < |pages| ==>
        pages[j] == DataPage(firstIndex + j, pageType, firstIndex + j + 1, |groups[j]|, groups[j])
  }

  // The first i rows are on closed pages and the open one; the rest will pack as the
  // specification says.
  predicate Packing(closed: seq<seq<Row>>, current: seq<Row>, rows: seq<Row>, i: nat)
    requires i <= |rows|
  {
    && AllFit(rows[..i])
    && closed + Pack(current, rows[i..]) == Pack([], rows)
  }

  lemma FitsIs(rows: seq<Row>, row: Row)
    ensures Fits(rows, row) <==> !WouldOverflow(|rows|, HeapEnd(rows), |row|)
  {}

  lemma NothingPacked(rows: seq<Row>, firstIndex: nat, pageType: nat)
    ensures Packing([], [], rows, 0) && Closed([], firstIndex, pageType, [])
  {
    hide Pack;
    assert rows[0..] == rows;
  }

  // Placing row i, on the open page or on a fresh one, keeps the packing; a row that fits
  // neither is too long.
  lemma PackingStep(closed: seq<seq<Row>>, current: seq<Row>, rows: seq<Row>, i: nat)
    requires i < |rows| && Packing(closed, current, rows, i)
    ensures Fits(current, rows[i]) ==> Packing(closed, current + [rows[i]], rows, i + 1)
    ensures !Fits(current, rows[i]) && Fits([], rows[i]) ==> Packing(closed + [current], [] + [rows[i]], rows, i + 1)
    ensures !Fits([], rows[i]) ==> !Fits(current, rows[i]) && !AllFit(rows)
  {
    hide Fits, Pack, AllFit;
    PackStep(current, rows, i);
    FreshPageFits(rows[i]);
    FitsImpliesShort(current, rows[i]);
    FitOneMore(rows, i);
    assert closed + ([current] + Pack([] + [rows[i]], rows[i + 1..])) == closed + [current]
      + Pack([] + [rows[i]], rows[i + 1..]);
  }

  lemma PackingEnds(closed: seq<seq<Row>>, current: seq<Row>, rows: seq<Row>)
    requires Packing(closed, current, rows, |rows|)
    ensures AllFit(rows) && Pack([], rows) == closed + [current]
  {
    hide Pack, AllFit;
    PackEnd(current, rows);
  }

  lemma ClosedSnoc(pages: seq<bytes>, firstIndex: nat, pageType: nat, groups: seq<seq<Row>>, page: bytes,
                   group: seq<Row>)
    requires Closed(pages, firstIndex, pageType, groups) && Written(group)
    requires page == DataPage(firstIndex + |pages|, pageType, firstIndex + |pages| + 1, |group|, group)
    ensures Closed(pages + [page], firstIndex, pageType, groups + [group])
  {
    hide DataPage, Written;
  }

  lemma LastClosed(pages: seq<bytes>, firstIndex: nat, pageType: nat, groups: seq<seq<Row>>, page: bytes,
                   group: seq<Row>)
    requires Closed(pages, firstIndex, pageType, groups) && Written(group)
    requires page == DataPage(firstIndex + |pages|, pageType, NO_NEXT, |group|, group)
    ensures AllWritten(groups + [group]) && Unsequenced(pages + [page], firstIndex, pageType, groups + [group])
  {
    hide DataPage, Written;
  }

  lemma PackStep(current: seq<Row>, rows: seq<Row>, i: nat)
    requires i < |rows|
    ensures Fits(current, rows[i]) ==> Pack(current, rows[i..]) == Pack(current + [rows[i]], rows[i + 1..])
    ensures !Fits(current, rows[i]) ==> Pack(current, rows[i..]) == [current] + Pack([] + [rows[i]], rows[i + 1..])
  {
    hide Fits;
    assert rows[i..][0] == rows[i] && rows[i..][1..] == rows[i + 1..];
    assert [] + [rows[i]] == [rows[i]];
  }

  lemma PackEnd(current: seq<Row>, rows: seq<Row>)
    ensures Pack(current, rows[|rows|..]) == [current]
    ensures rows[..|rows|] == rows
  {}

  lemma FitOneMore(rows: seq<Row>, i: nat)
    requires i < |rows| && AllFit(rows[..i])
    ensures AllFit(rows[..i + 1]) <==> |rows[i]| <= MAX_ROW
    ensures |rows[i]| > MAX_ROW ==> !AllFit(rows)
  {
    assert rows[..i + 1][i] == rows[i];
  }

  lemma FitsImpliesShort(rows: seq<Row>, row: Row)
    ensures Fits(rows, row) ==> |row| <= MAX_ROW
  {}

  datatype TableBuild = TableBuild(
    indexPage: bytes, dataPages: seq<bytes>, indexPageIndex: nat, lastDataPage: nat, newSequence: nat, nextIndex: nat)

  // One table: index page, data pages (or one zeroed page), sequence numbers patched in.
  method BuildTable(rows: seq<Row>, pageType: nat, firstIndex: nat, firstSequence: nat)
    returns (r: Result<TableBuild, PageError>)
    ensures r.Success? <==> AllFit(rows)
    ensures r.Success? ==>
      && [r.value.indexPage] + r.value.dataPages == TablePages(firstIndex, pageType, firstSequence, NO_NEXT, rows)
      && r.value.indexPageIndex == firstIndex
      && r.value.lastDataPage == firstIndex + |DataGroups(rows)|
      && r.value.newSequence == firstSequence + |DataGroups(rows)|
      && r.value.nextIndex == firstIndex + 1 + TablePageTotal(rows)
  {
    hide DataPage, IndexPage, Pack;
    var nextIndex, dataPages := firstIndex + 2, [Zeros(PAGE_SIZE)];
    var sequence := firstSequence;
    if rows != [] {
      var built;
      built, nextIndex := BuildDataPages(rows, pageType, firstIndex + 1);
      if built.Failure? {
        return Failure(built.error);
      }
      dataPages, sequence := PatchSequences(built.value, firstIndex + 1, pageType, DataGroups(rows), firstSequence);
    }
    var index := new IndexPageBuilder(firstIndex, pageType);
    var indexPage := index.Finalize(firstIndex + 1, rows != []);
    var last := if rows != [] then firstIndex + 1 + |dataPages| - 1 else firstIndex;
    r := Success(TableBuild(indexPage, dataPages, firstIndex, last, sequence, nextIndex));
  }

  method PatchSequences(unpatched: seq<bytes>, ghost firstIndex: nat, ghost pageType: nat,
                        ghost groups: seq<seq<Row>>, firstSequence: nat)
    returns (pages: seq<bytes>, sequence: nat)
    requires AllWritten(groups) && Unsequenced(unpatched, firstIndex, pageType, groups)
    ensures pages == DataPagesOf(firstIndex, pageType, firstSequence, NO_NEXT, groups)
    ensures sequence == firstSequence + |groups|
  {
    hide DataPage, LE32, DataFlags;
    pages, sequence := unpatched, firstSequence;
    for j := 0 to |pages|
      invariant |pages| == |groups| && sequence == firstSequence + j
      invariant forall k :: j <= k < |pages| ==> pages[k] == unpatched[k]
      invariant forall k :: 0 <= k < j ==>
        pages[k] == DataPage(firstIndex + k, pageType, NextPage(firstIndex, k, |groups|, NO_NEXT),
                             firstSequence + k, groups[k])
    {
      var next := NextPage(firstIndex, j, |groups|, NO_NEXT);
      FlagsNonZero(firstIndex + j, pageType, next, |groups[j]|, groups[j]);
      PatchSequence(firstIndex + j, pageType, next, |groups[j]|, groups[j], sequence);
      if pages[j][0x1B] != 0 {
        pages := pages[j := Put(pages[j], 0x10, LE32(sequence))];
        sequence := sequence + 1;
      }
    }
  }

  // Finished data pages are told from zeroed ones by their flag byte.
  lemma FlagsNonZero(index: nat, pageType: nat, next: nat, word16: nat, rows: seq<Row>)
    requires Written(rows)
    ensures DataPage(index, pageType, next, word16, rows)[0x1B] == DataFlags(pageType) != 0
  {
    hide Heap, Offsets, RowIndex, Groups, Links, SaturatingSub, ReservedStart, Written;
    EndOfHeap(rows);
    var page := DataPage(index, pageType, next, word16, rows);
    var n := |rows|;
    var counts := Counts(PackedCounts(n), DataFlags(pageType), SaturatingSub(ReservedStart(n), HeapEnd(rows)),
      HeapEnd(rows) - HEAP_START, n);
    assert page[24..40] == counts;
    assert page[27] == page[24..40][3];
  }

  // ---- The whole file -----------------------------------------------------------------

  // What build remembers of a table: its index page and its last data page.
  datatype TableInfo = TableInfo(indexPage: nat, lastDataPage: nat)

  // The (last data page, page to continue to) pairs of the first n tables that have rows.
  function PatchTargets(tables: Tables, n: nat): (r: seq<(nat, nat)>)
    requires n <= |tables|
    ensures |r| == DataTables(tables, n)
  {
    if n == 0 then []
    else PatchTargets(tables, n - 1)
         + if tables[n - 1] == [] then [] else [(LastPage(tables, n - 1), Phantom(tables, n - 1))]
  }

  method BuildFile(tables: Tables, trackCount: nat) returns (r: Result<bytes, PageError>)
    requires |tables| == TABLE_COUNT
    ensures r.Success? <==> AllTablesFit(tables)
    ensures r.Success? ==> r.value == Concat(FilePages(tables, trackCount))
  {
    hide AllTablesFit, TablesWritten, HeaderPage, FilePages, Concat, PatchTargets, Start, FirstSequence,
         NextUnused, TablePointer, TableInPlace, Phantom, HeaderFields;
    var built := BuildTables(tables);
    if built.Failure? {
      return Failure(built.error);
    }
    var (unpatched, infos, sequence) := built.value;
    WrittenTables(unpatched, infos, tables);
    var pointers, targets, nextUnused := AssignChainEnds(tables, infos, |unpatched|);
    var pages := PatchChainEnds(unpatched, tables, targets);
    var header := WriteHeaderPage(pointers, nextUnused, trackCount, sequence);
    HeaderIs(tables, pointers, trackCount, header);
    HeaderInPlace(pages, tables, trackCount, header);
    pages := pages[0 := header];
    var output := Flattened(pages);
    r := Success(output);
  }

  lemma WrittenTables(pages: seq<bytes>, infos: seq<TableInfo>, tables: Tables)
    requires TablesWritten(pages, infos, tables, |tables|)
    ensures AllTablesFit(tables) && |infos| == |tables| && |pages| == PageCount(tables) >= 1 && PageSized(pages)
    ensures forall t :: 0 <= t < |tables| ==> TableInPlace(pages, tables, t, NO_NEXT)
    ensures forall t :: 0 <= t < |tables| ==> infos[t] == TableInfo(Start(tables, t), LastPage(tables, t))
  {
    hide AllFit, TableInPlace, LastPage, Start;
  }

  lemma HeaderIs(tables: Tables, pointers: seq<bytes>, trackCount: nat, header: bytes)
    requires |tables| == |pointers| == TABLE_COUNT && forall t :: 0 <= t < TABLE_COUNT ==>
      pointers[t] == TablePointer(tables, t)
    requires header == HeaderFields(TABLE_COUNT, NextUnused(tables), trackCount, FirstSequence(tables, TABLE_COUNT))
                       + Concat(pointers) + Zeros(PAGE_SIZE - 28 - 16 * TABLE_COUNT)
    ensures header == HeaderPage(tables, trackCount)
  {
    hide HeaderFields, TablePointer, TablePointers, Concat, NextUnused, FirstSequence;
    PointersConcat(tables, pointers, TABLE_COUNT);
    assert pointers[..TABLE_COUNT] == pointers;
  }

  // The first n tables are written, behind a placeholder for the header page.
  predicate TablesWritten(pages: seq<bytes>, infos: seq<TableInfo>, tables: Tables, n: nat)
    requires n <= |tables|
  {
    && |pages| == Start(tables, n) && PageSized(pages) && |infos| == n
    && (forall u :: 0 <= u < n ==> AllFit(tables[u]) && TableInPlace(pages, tables, u, NO_NEXT))
    && (forall u :: 0 <= u < n ==> infos[u] == TableInfo(Start(tables, u), LastPage(tables, u)))
  }

  method BuildTables(tables: Tables) returns (r: Result<(seq<bytes>, seq<TableInfo>, nat), PageError>)
    requires |tables| == TABLE_COUNT
    ensures r.Success? <==> AllTablesFit(tables)
    ensures r.Success? ==>
      TablesWritten(r.value.0, r.value.1, tables, TABLE_COUNT) && r.value.2 == FirstSequence(tables, TABLE_COUNT)
  {
    hide TablePages, AllFit, TablesWritten, DataGroups, TablePageTotal;
    var pages := [Zeros(PAGE_SIZE)];
    var nextIndex, sequence := 1, 2;
    var infos: seq<TableInfo> := [];
    NoneWritten(tables);
    for t := 0 to TABLE_COUNT
      invariant nextIndex == Start(tables, t) && sequence == FirstSequence(tables, t)
      invariant TablesWritten(pages, infos, tables, t)
    {
      var table := BuildTable(tables[t], t, nextIndex, sequence);
      if table.Failure? {
        return Failure(table.error);
      }
      var built := table.value;
      TableWritten(pages, infos, tables, t, [built.indexPage] + built.dataPages);
      infos := infos + [TableInfo(built.indexPageIndex, built.lastDataPage)];
      pages := pages + ([built.indexPage] + built.dataPages);
      nextIndex, sequence := built.nextIndex, built.newSequence;
    }
    EveryTableFits(pages, infos, tables);
    r := Success((pages, infos, sequence));
  }

  lemma NoneWritten(tables: Tables)
    ensures TablesWritten([Zeros(PAGE_SIZE)], [], tables, 0)
  {}

  lemma EveryTableFits(pages: seq<bytes>, infos: seq<TableInfo>, tables: Tables)
    requires TablesWritten(pages, infos, tables, |tables|)
    ensures AllTablesFit(tables)
  {}

  lemma TableWritten(pages: seq<bytes>, infos: seq<TableInfo>, tables: Tables, t: nat, table: seq<bytes>)
    requires t < |tables| && TablesWritten(pages, infos, tables, t) && AllFit(tables[t])
    requires table == TablePages(Start(tables, t), t, FirstSequence(tables, t), NO_NEXT, tables[t])
    ensures TablesWritten(pages + table, infos + [TableInfo(Start(tables, t), LastPage(tables, t))], tables, t + 1)
  {
    hide TablePages, AllFit, TableInPlace, FirstSequence, DataGroups, TablePageTotal;
    TableAppended(pages, table, tables, t);
    Sized(pages, table);
  }

  lemma Sized(was: seq<bytes>, more: seq<bytes>)
    requires PageSized(was) && PageSized(more)
    ensures PageSized(was + more)
  {}

  lemma TableAppended(was: seq<bytes>, table: seq<bytes>, tables: Tables, t: nat)
    requires t < |tables| && |was| == Start(tables, t) && forall u :: 0 <= u <= t ==> AllFit(tables[u])
    requires table == TablePages(Start(tables, t), t, FirstSequence(tables, t), NO_NEXT, tables[t])
    requires forall u :: 0 <= u < t ==> TableInPlace(was, tables, u, NO_NEXT)
    ensures forall u :: 0 <= u <= t ==> TableInPlace(was + table, tables, u, NO_NEXT)
  {
    hide TablePages, FirstSequence, AllFit, TableInPlace, Start;
    forall u | 0 <= u <= t
      ensures TableInPlace(was + table, tables, u, NO_NEXT)
    {
      if u < t {
        StillInPlace(was, table, tables, u, NO_NEXT);
      } else {
        LastInPlace(was, table, tables, t, NO_NEXT);
      }
    }
  }

  lemma StillInPlace(was: seq<bytes>, more: seq<bytes>, tables: Tables, u: nat, chainEnd: nat)
    requires u < |tables| && AllFit(tables[u]) && TableInPlace(was, tables, u, chainEnd)
    ensures TableInPlace(was + more, tables, u, chainEnd)
  {
    hide TablePages, FirstSequence, AllFit, TablePageTotal;
    assert (was + more)[Start(tables, u)..Start(tables, u + 1)] == was[Start(tables, u)..Start(tables, u + 1)];
  }

  lemma LastInPlace(was: seq<bytes>, table: seq<bytes>, tables: Tables, t: nat, chainEnd: nat)
    requires t < |tables| && AllFit(tables[t]) && |was| == Start(tables, t)
    requires table == TablePages(Start(tables, t), t, FirstSequence(tables, t), chainEnd, tables[t])
    ensures TableInPlace(was + table, tables, t, chainEnd)
  {
    hide TablePages, FirstSequence, AllFit, TablePageTotal;
    assert (was + table)[|was|..|was| + |table|] == table;
  }

  // Gives every data table a page of its own beyond the file and every empty table its
  // zeroed page, and records the pointers and what to patch.
  method AssignChainEnds(tables: Tables, infos: seq<TableInfo>, pageCount: nat)
    returns (pointers: seq<bytes>, targets: seq<(nat, nat)>, nextUnused: nat)
    requires |tables| == |infos| == TABLE_COUNT && pageCount == PageCount(tables)
    requires forall t :: 0 <= t < TABLE_COUNT ==> infos[t] == TableInfo(Start(tables, t), LastPage(tables, t))
    ensures |pointers| == TABLE_COUNT && forall t :: 0 <= t < TABLE_COUNT ==> pointers[t] == TablePointer(tables, t)
    ensures targets == PatchTargets(tables, TABLE_COUNT) && nextUnused == NextUnused(tables)
  {
    hide Start, DataGroups, LE32;
    pointers, targets := [], [];
    var phantom := pageCount;
    for t := 0 to TABLE_COUNT
      invariant phantom == pageCount + DataTables(tables, t) && |pointers| == t
      invariant forall u :: 0 <= u < t ==> pointers[u] == TablePointer(tables, u)
      invariant targets == PatchTargets(tables, t)
    {
      var info := infos[t];
      GroupCount(tables[t]);
      var hasData := info.lastDataPage > info.indexPage;
      var candidate := info.lastDataPage + 1;
      if hasData {
        candidate := phantom;
        phantom := phantom + 1;
        targets := targets + [(info.lastDataPage, candidate)];
      }
      pointers := pointers + [LE32(t) + LE32(candidate) + LE32(info.indexPage) + LE32(info.lastDataPage)];
    }
    nextUnused := phantom;
  }

  lemma {:induction false} PointersConcat(tables: Tables, pointers: seq<bytes>, n: nat)
    requires n <= |tables| == |pointers| && forall t :: 0 <= t < |tables| ==> pointers[t] == TablePointer(tables, t)
    ensures Concat(pointers[..n]) == TablePointers(tables, n)
  {
    hide TablePointer;
    if n > 0 {
      PointersConcat(tables, pointers, n - 1);
      assert pointers[..n] == pointers[..n - 1] + [pointers[n - 1]];
      ConcatSnoc(pointers[..n - 1], pointers[n - 1]);
    }
  }

  // The page that table t's chain ends at once the first k targets have been patched.
  function ChainEndAfter(tables: Tables, t: nat, k: nat): nat
    requires t < |tables|
  {
    if DataTables(tables, t) < k then Phantom(tables, t) else NO_NEXT
  }

  // Every table is in place, the chains of the first k data tables ended.
  predicate AllInPlace(pages: seq<bytes>, tables: Tables, k: nat)
    requires AllTablesFit(tables)
  {
    forall t :: 0 <= t < |tables| ==> TableInPlace(pages, tables, t, ChainEndAfter(tables, t, k))
  }

  // Points the last page of every data table at the page that ends its chain.
  method PatchChainEnds(unpatched: seq<bytes>, ghost tables: Tables, targets: seq<(nat, nat)>)
    returns (pages: seq<bytes>)
    requires |tables| == TABLE_COUNT && AllTablesFit(tables) && |unpatched| == PageCount(tables) && PageSized(unpatched)
    requires forall t :: 0 <= t < TABLE_COUNT ==> TableInPlace(unpatched, tables, t, NO_NEXT)
    requires targets == PatchTargets(tables, TABLE_COUNT)
    ensures |pages| == PageCount(tables)
    ensures forall t :: 0 <= t < TABLE_COUNT ==> TableInPlace(pages, tables, t, Phantom(tables, t))
  {
    hide TablePages, AllFit, LE32, TableInPlace, Start, LastPage, Phantom, PatchTargets, DataTables;
    pages := unpatched;
    forall t | 0 <= t < TABLE_COUNT
      ensures TableInPlace(pages, tables, t, ChainEndAfter(tables, t, 0))
    {}
    for k := 0 to |targets|
      invariant |pages| == PageCount(tables) && PageSized(pages)
      invariant AllInPlace(pages, tables, k)
    {
      ghost var u := NthDataTable(tables, TABLE_COUNT, k);
      LastPageInFile(tables, u);
      var (page, next) := targets[k];
      PatchOneTable(pages, tables, u, k);
      pages := PatchedAt(pages, page, next);
    }
    forall t | 0 <= t < TABLE_COUNT
      ensures TableInPlace(pages, tables, t, Phantom(tables, t))
    {
      assert TableInPlace(pages, tables, t, ChainEndAfter(tables, t, |targets|));
      AllPatched(pages, tables, t);
    }
  }

  lemma {:induction false} NthDataTable(tables: Tables, n: nat, k: nat) returns (u: nat)
    requires n <= |tables| && k < DataTables(tables, n)
    ensures u < n && tables[u] != [] && DataTables(tables, u) == k
    ensures PatchTargets(tables, n)[k] == (LastPage(tables, u), Phantom(tables, u))
  {
    hide Start, DataGroups;
    if k < DataTables(tables, n - 1) {
      u := NthDataTable(tables, n - 1, k);
    } else {
      u := n - 1;
    }
  }

  lemma LastPageInFile(tables: Tables, u: nat)
    requires u < |tables| && tables[u] != []
    ensures LastPage(tables, u) < Start(tables, u + 1) <= PageCount(tables)
  {
    hide DataGroups;
    GroupCount(tables[u]);
    if u + 1 < |tables| { StartGrows(tables, u + 1, |tables|); }
  }

  // A table without rows has no chain to end; one with rows has been patched.
  lemma AllPatched(pages: seq<bytes>, tables: Tables, t: nat)
    requires t < |tables| && AllFit(tables[t])
    requires TableInPlace(pages, tables, t, ChainEndAfter(tables, t, DataTables(tables, |tables|)))
    ensures TableInPlace(pages, tables, t, Phantom(tables, t))
  {
    hide AllFit, Start, TablePages, FirstSequence, Phantom;
    if tables[t] == [] {
      NoChain(Start(tables, t), t, FirstSequence(tables, t), ChainEndAfter(tables, t, DataTables(tables, |tables|)),
        Phantom(tables, t));
    } else {
      DataTablesGrow(tables, t, |tables|);
    }
  }

  // The pages with next_page of one of them overwritten.
  function PatchedAt(pages: seq<bytes>, page: nat, next: nat): (r: seq<bytes>)
    requires page < |pages| && PageSized(pages)
    ensures |r| == |pages| && PageSized(r)
  {
    pages[page := Put(pages[page], 0x0C, LE32(next))]
  }

  lemma UnpatchedYet(tables: Tables, u: nat)
    requires u < |tables|
    ensures ChainEndAfter(tables, u, DataTables(tables, u)) == NO_NEXT
    ensures ChainEndAfter(tables, u, DataTables(tables, u) + 1) == Phantom(tables, u)
  {}

  lemma PatchOneTable(was: seq<bytes>, tables: Tables, u: nat, k: nat)
    requires u < |tables| == TABLE_COUNT && AllTablesFit(tables) && tables[u] != [] && DataTables(tables, u) == k
    requires LastPage(tables, u) < |was| && PageSized(was)
    requires AllInPlace(was, tables, k)
    ensures AllInPlace(PatchedAt(was, LastPage(tables, u), Phantom(tables, u)), tables, k + 1)
  {
    hide TablePages, AllFit, LE32, TableInPlace, Start, LastPage, Phantom, DataTables, ChainEndAfter,
         FirstSequence;
    var pages, k' := PatchedAt(was, LastPage(tables, u), Phantom(tables, u)), k + 1;
    forall t | 0 <= t < TABLE_COUNT
      ensures TableInPlace(pages, tables, t, ChainEndAfter(tables, t, k'))
    {
      assert TableInPlace(was, tables, t, ChainEndAfter(tables, t, k));
      if t == u {
        UnpatchedYet(tables, u);
        PatchedTable(was, tables, u);
      } else {
        OtherTable(was, tables, u, t, ChainEndAfter(tables, t, k),
          Put(was[LastPage(tables, u)], 0x0C, LE32(Phantom(tables, u))));
        SameChainEnd(pages, tables, u, t);
      }
    }
  }

  lemma PatchedTable(was: seq<bytes>, tables: Tables, u: nat)
    requires u < |tables| && AllFit(tables[u]) && tables[u] != []
    requires LastPage(tables, u) < |was| && PageSized(was)
    requires TableInPlace(was, tables, u, NO_NEXT)
    ensures TableInPlace(PatchedAt(was, LastPage(tables, u), Phantom(tables, u)), tables, u, Phantom(tables, u))
  {
    hide TablePages, AllFit, LE32, DataGroups, Phantom, FirstSequence, Start;
    var start, last, chainEnd := Start(tables, u), LastPage(tables, u), Phantom(tables, u);
    TableEnd(was, tables, u, NO_NEXT);
    PageInPlace(was, tables, u, NO_NEXT, last);
    var table := TablePages(start, u, FirstSequence(tables, u), NO_NEXT, tables[u]);
    var pages := was[last := Put(was[last], 0x0C, LE32(chainEnd))];
    ChainEndPatched(start, u, FirstSequence(tables, u), chainEnd, tables[u]);
    assert pages[start..Start(tables, u + 1)] == table[last - start := Put(was[last], 0x0C, LE32(chainEnd))];
  }

  // Overwriting next_page of a table's last page, and nothing else, ends its chain there.
  // What is overwritten is a data page.
  lemma ChainEndPatched(start: nat, pageType: nat, sequence: nat, chainEnd: nat, rows: seq<Row>)
    requires AllFit(rows) && rows != []
    ensures var table, n := TablePages(start, pageType, sequence, NO_NEXT, rows), |DataGroups(rows)|;
      && n < |table| && table[n][0x1B] in {0x24, 0x34}
      && table[n := Put(table[n], 0x0C, LE32(chainEnd))] == TablePages(start, pageType, sequence, chainEnd, rows)
  {
    hide AllFit, LE32, DataGroups, DataPage, IndexPage, TablePages, Written, NextPage;
    var before, after := TablePages(start, pageType, sequence, NO_NEXT, rows),
      TablePages(start, pageType, sequence, chainEnd, rows);
    var groups := DataGroups(rows);
    var n := |groups|;
    GroupCount(rows);
    IndexPageFirst(start, pageType, sequence, NO_NEXT, rows);
    IndexPageFirst(start, pageType, sequence, chainEnd, rows);
    DataPageOf(start, pageType, sequence, NO_NEXT, rows, n - 1);
    var last, word16, ofLast := start + n, sequence + n - 1, groups[n - 1];
    AllWrittenMeans(groups);
    NextOfLast(start + 1, n, NO_NEXT);
    NextOfLast(start + 1, n, chainEnd);
    FlagsNonZero(last, pageType, NO_NEXT, word16, ofLast);
    PatchNext(last, pageType, NO_NEXT, word16, ofLast, chainEnd);
    forall k | 0 <= k < |after|
      ensures before[n := Put(before[n], 0x0C, LE32(chainEnd))][k] == after[k]
    {
      if k > 0 {
        DataPageOf(start, pageType, sequence, NO_NEXT, rows, k - 1);
        DataPageOf(start, pageType, sequence, chainEnd, rows, k - 1);
        if k < n { NextOfInner(start + 1, k - 1, n, NO_NEXT, chainEnd); }
      }
    }
  }

  lemma NextOfLast(first: nat, n: nat, chainEnd: nat)
    requires n > 0
    ensures NextPage(first, n - 1, n, chainEnd) == chainEnd
  {}

  lemma NextOfInner(first: nat, j: nat, n: nat, a: nat, b: nat)
    requires j + 1 < n
    ensures NextPage(first, j, n, a) == NextPage(first, j, n, b)
  {}

  lemma OtherTable(was: seq<bytes>, tables: Tables, u: nat, t: nat, chainEnd: nat, page: bytes)
    requires u < |tables| && t < |tables| && t != u && AllFit(tables[t]) && tables[u] != []
    requires LastPage(tables, u) < |was| && TableInPlace(was, tables, t, chainEnd)
    ensures TableInPlace(was[LastPage(tables, u) := page], tables, t, chainEnd)
  {
    hide TablePages, AllFit, DataGroups, FirstSequence;
    GroupCount(tables[u]);
    if t < u { StartGrows(tables, t, u); } else { StartGrows(tables, u, t); }
    var pages := was[LastPage(tables, u) := page];
    assert pages[Start(tables, t)..Start(tables, t + 1)] == was[Start(tables, t)..Start(tables, t + 1)];
  }

  // Patching table u leaves every other table as patched or unpatched as it was.
  lemma SameChainEnd(pages: seq<bytes>, tables: Tables, u: nat, t: nat)
    requires u < |tables| && t < |tables| && t != u && tables[u] != [] && AllFit(tables[t])
    requires TableInPlace(pages, tables, t, ChainEndAfter(tables, t, DataTables(tables, u)))
    ensures TableInPlace(pages, tables, t, ChainEndAfter(tables, t, DataTables(tables, u) + 1))
  {
    hide AllFit, Start, TablePages, FirstSequence, Phantom, ChainEndAfter, DataTables;
    SameEnd(tables, u, t);
    if tables[t] == [] {
      NoChain(Start(tables, t), t, FirstSequence(tables, t), ChainEndAfter(tables, t, DataTables(tables, u)),
              ChainEndAfter(tables, t, DataTables(tables, u) + 1));
    }
  }

  lemma SameEnd(tables: Tables, u: nat, t: nat)
    requires u < |tables| && t < |tables| && t != u && tables[u] != []
    ensures tables[t] != [] ==>
      ChainEndAfter(tables, t, DataTables(tables, u)) == ChainEndAfter(tables, t, DataTables(tables, u) + 1)
  {
    hide Phantom, DataTables;
    if t < u { DataTablesGrow(tables, t, u); } else { DataTablesGrow(tables, u, t); }
  }

  lemma NoChain(start: nat, pageType: nat, sequence: nat, a: nat, b: nat)
    ensures AllFit([]) && TablePages(start, pageType, sequence, a, []) == TablePages(start, pageType, sequence, b, [])
  {}

  lemma HeaderInPlace(pages: seq<bytes>, tables: Tables, trackCount: nat, header: bytes)
    requires |tables| == TABLE_COUNT && AllTablesFit(tables) && |pages| == PageCount(tables) >= 1
    requires forall t :: 0 <= t < TABLE_COUNT ==> TableInPlace(pages, tables, t, Phantom(tables, t))
    requires header == HeaderPage(tables, trackCount)
    ensures pages[0 := header] == FilePages(tables, trackCount)
  {
    hide AllFit, TablePages, FirstSequence, Phantom, HeaderPage, FilePages;
    forall t | 0 <= t < TABLE_COUNT
      ensures TableInPlace(pages[0 := header], tables, t, Phantom(tables, t))
    {
      assert TableInPlace(pages, tables, t, Phantom(tables, t));
      assert pages[0 := header][Start(tables, t)..Start(tables, t + 1)]
        == pages[Start(tables, t)..Start(tables, t + 1)];
    }
    FilePagesAreAnImage(tables, trackCount);
    ImageIsUnique(pages[0 := header], FilePages(tables, trackCount), tables, trackCount);
  }

  method Flattened(pages: seq<bytes>) returns (output: bytes)
    ensures output == Concat(pages)
  {
    output := [];
    for p := 0 to |pages|
      invariant output == Concat(pages[..p])
    {
      assert pages[..p + 1] == pages[..p] + [pages[p]];
      ConcatSnoc(pages[..p], pages[p]);
      output := output + pages[p];
    }
    assert pages[..|pages|] == pages;
  }
}
