// Where the pages of an export.pdb go and what each holds, as functions of the rows of
// its 20 tables: greedy packing of rows into pages, page numbers, sequence numbers and
// the phantom page that ends each table's chain.
module Layout {
  import opened Bytes
  import opened Page

  // Rows of each table, indexed by table type.
  type Tables = seq<seq<Row>>

  const TABLE_COUNT: nat := 20
  const NO_NEXT: nat := 0xFFFF_FFFF
  const EMPTY_TABLE_MARKER: nat := 0x03FF_FFFF

  // ---- Packing ---------------------------------------------------------------

  // The pages' rows: `current` is on the open page, `rest` still to be placed.
  function Pack(current: seq<Row>, rest: seq<Row>): (groups: seq<seq<Row>>)
    ensures |groups| >= 1
    decreases rest
  {
    if rest == [] then [current]
    else if Fits(current, rest[0]) then Pack(current + [rest[0]], rest[1..])
    else [current] + Pack([rest[0]], rest[1..])
  }

  // Rows of each data page of a table; an empty table has none.
  function DataGroups(rows: seq<Row>): seq<seq<Row>> {
    if rows == [] then [] else Pack([], rows)
  }

  function Flatten(groups: seq<seq<Row>>): seq<Row> {
    if groups == [] then [] else groups[0] + Flatten(groups[1..])
  }

  predicate AllFit(rows: seq<Row>) {
    forall i :: 0 <= i < |rows| ==> |rows[i]| <= MAX_ROW
  }

  predicate AllWritten(groups: seq<seq<Row>>) {
    forall j :: 0 <= j < |groups| ==> Written(groups[j])
  }

  // Exactly the rows of up to 4020 bytes fit an empty page.
  lemma FreshPageFits(row: Row)
    ensures Fits([], row) <==> |row| <= MAX_ROW
  {}

  lemma WrittenSnoc(rows: seq<Row>, row: Row)
    requires Written(rows) && Fits(rows, row)
    ensures Written(rows + [row])
  {
    hide Fits;
    assert (rows + [row])[..|rows|] == rows;
  }

  // Packing neither loses, duplicates nor reorders rows, and every page of the result
  // can be written.
  lemma {:induction false} PackKeeps(current: seq<Row>, rest: seq<Row>)
    requires Written(current) && AllFit(rest)
    ensures Flatten(Pack(current, rest)) == current + rest
    ensures AllWritten(Pack(current, rest))
    decreases rest
  {
    hide Fits, Written;
    if rest == [] {
      assert Flatten([current]) == current + Flatten([]);
    } else {
      var row, more := rest[0], rest[1..];
      if Fits(current, row) {
        WrittenSnoc(current, row);
        PackKeeps(current + [row], more);
        assert current + [row] + more == current + rest;
      } else {
        FreshPageFits(row);
        WrittenEmpty();
        WrittenSnoc([], row);
        assert [] + [row] == [row];
        PackKeeps([row], more);
        var tail := Pack([row], more);
        assert ([current] + tail)[1..] == tail;
        assert current + ([row] + more) == current + rest;
      }
    }
  }

  lemma WrittenEmpty()
    ensures Written([])
  {}

  lemma DataGroupsKeep(rows: seq<Row>)
    requires AllFit(rows)
    ensures Flatten(DataGroups(rows)) == rows && AllWritten(DataGroups(rows))
  {
    hide Pack;
    WrittenEmpty();
    PackKeeps([], rows);
    assert [] + rows == rows;
  }

  // No page but possibly none is left without rows.
  lemma {:induction false} PackNonEmpty(current: seq<Row>, rest: seq<Row>)
    requires current != [] || (rest != [] && AllFit(rest))
    ensures forall j :: 0 <= j < |Pack(current, rest)| ==> Pack(current, rest)[j] != []
    decreases rest
  {
    hide Fits;
    if rest != [] {
      if Fits(current, rest[0]) {
        PackNonEmpty(current + [rest[0]], rest[1..]);
      } else {
        FreshPageFits(rest[0]);
        PackNonEmpty([rest[0]], rest[1..]);
      }
    }
  }

  // A page takes a row as long as the row and the index of all rows have room; only when
  // the index would then be full is a further group of 36 bytes kept free.
  lemma FitsExactly(rows: seq<Row>, row: Row)
    ensures var n := |rows| + 1;
      Fits(rows, row) <==>
        40 + |Heap(rows)| + |row| + 36 * Groups(n) + (if n % 16 == 0 then 36 else 0) <= 4096
  {
    hide Heap;
  }

  // A page is closed only when the next row no longer fits on it.
  ghost predicate Greedy(groups: seq<seq<Row>>) {
    forall j :: 0 <= j < |groups| - 1 ==> ClosedRightly(groups, j)
  }

  predicate ClosedRightly(groups: seq<seq<Row>>, j: nat)
    requires j + 1 < |groups|
  {
    groups[j + 1] != [] && !Fits(groups[j], groups[j + 1][0])
  }

  lemma {:induction false} PackIsGreedy(current: seq<Row>, rest: seq<Row>)
    ensures Greedy(Pack(current, rest)) && current <= Pack(current, rest)[0]
    decreases rest
  {
    hide Fits;
    if rest != [] {
      if Fits(current, rest[0]) {
        PackIsGreedy(current + [rest[0]], rest[1..]);
      } else {
        var tail := Pack([rest[0]], rest[1..]);
        PackIsGreedy([rest[0]], rest[1..]);
        assert tail[0][0] == rest[0];
        var groups := [current] + tail;
        forall j | 0 <= j < |groups| - 1
          ensures ClosedRightly(groups, j)
        {
          assert j > 0 ==> ClosedRightly(tail, j - 1);
        }
      }
    }
  }

  // So the pages of a table are the only ones that hold its rows in order and close each
  // page for that reason alone.
  lemma GreedyPagesAreUnique(rows: seq<Row>, groups: seq<seq<Row>>)
    requires rows != [] && groups != [] && Flatten(groups) == rows && groups[0] != []
    requires AllWritten(groups) && Greedy(groups)
    ensures groups == DataGroups(rows)
  {
    hide Pack, Fits, Written, AllWritten;
    assert [] + groups[0] == groups[0] && [groups[0]] + groups[1..] == groups;
    FirstRows([], groups[0], groups[1..]);
  }

  // Packing the rows of greedy pages gives the pages back: the first k rows of the first
  // page are on the open one.
  lemma {:induction false} FirstRows(current: seq<Row>, more: seq<Row>, later: seq<seq<Row>>)
    requires AllWritten([current + more] + later) && Greedy([current + more] + later) && current + more != []
    ensures Pack(current, more + Flatten(later)) == [current + more] + later
    decreases |later|, |more|
  {
    hide Fits, Written, Flatten;
    var groups := [current + more] + later;
    FlattenSteps(later);
    assert AllWritten(later) && Written(current + more) by {
      assert groups[0] == current + more;
      assert forall j :: 0 <= j < |later| ==> later[j] == groups[j + 1];
    }
    if more != [] {
      WrittenTake(current + more, |current|);
      assert (current + more)[..|current|] == current && (current + more)[|current|] == more[0];
      assert current + [more[0]] + more[1..] == current + more;
      assert (more + Flatten(later))[1..] == more[1..] + Flatten(later);
      FirstRows(current + [more[0]], more[1..], later);
    } else if later != [] {
      assert current + more == current && more + Flatten(later) == Flatten(later);
      assert groups[1] == later[0] && ClosedRightly(groups, 0);
      var next, rest := later[0], later[1..];
      assert Greedy(later) by {
        assert forall j :: 0 <= j < |later| - 1 ==> ClosedRightly(groups, j + 1) && ClosedRightly(later, j);
      }
      assert [next[0]] + next[1..] == next && [next] + rest == later;
      assert Flatten(later)[1..] == next[1..] + Flatten(rest);
      FirstRows([next[0]], next[1..], rest);
    } else {
      assert more + Flatten(later) == [] && current + more == current;
    }
  }

  lemma FlattenSteps(groups: seq<seq<Row>>)
    ensures Flatten(groups) == if groups == [] then [] else groups[0] + Flatten(groups[1..])
  {}

  // What is on a page fitted row by row.
  lemma {:induction false} WrittenTake(rows: seq<Row>, n: nat)
    requires Written(rows) && n < |rows|
    ensures Fits(rows[..n], rows[n])
  {
    hide Fits;
    if n < |rows| - 1 {
      WrittenTake(rows[..|rows| - 1], n);
      assert rows[..|rows| - 1][..n] == rows[..n];
    }
  }

  // ---- Page numbers ------------------------------------------------------------

  // Pages after a table's index page; an empty table has one zeroed page.
  function TablePageTotal(rows: seq<Row>): (n: nat)
    ensures n >= 1
  {
    if rows == [] then 1 else |DataGroups(rows)|
  }

  // Page number of table t's index page.
  function Start(tables: Tables, t: nat): (p: nat)
    requires t <= |tables|
    ensures p >= 1
  {
    if t == 0 then 1 else Start(tables, t - 1) + 1 + TablePageTotal(tables[t - 1])
  }

  function PageCount(tables: Tables): nat {
    Start(tables, |tables|)
  }

  // Sequence number of table t's first data page.
  function FirstSequence(tables: Tables, t: nat): nat
    requires t <= |tables|
  {
    if t == 0 then 2 else FirstSequence(tables, t - 1) + |DataGroups(tables[t - 1])|
  }

  // How many of the first t tables have rows.
  function DataTables(tables: Tables, t: nat): (n: nat)
    requires t <= |tables|
    ensures n <= t
  {
    if t == 0 then 0 else DataTables(tables, t - 1) + (if tables[t - 1] == [] then 0 else 1)
  }

  function TablesWithRows(tables: Tables, t: nat): set<nat>
    requires t <= |tables|
  {
    set u: nat | u < t && tables[u] != []
  }

  lemma {:induction false} DataTablesCount(tables: Tables, t: nat)
    requires t <= |tables|
    ensures DataTables(tables, t) == |TablesWithRows(tables, t)|
  {
    if t > 0 {
      DataTablesCount(tables, t - 1);
      var before := TablesWithRows(tables, t - 1);
      assert TablesWithRows(tables, t) == if tables[t - 1] == [] then before else before + {t - 1};
    } else {
      assert TablesWithRows(tables, 0) == {};
    }
  }

  function Phantom(tables: Tables, t: nat): nat
    requires t < |tables|
  {
    PageCount(tables) + DataTables(tables, t)
  }

  function NextUnused(tables: Tables): nat {
    PageCount(tables) + DataTables(tables, |tables|)
  }

  function LastPage(tables: Tables, t: nat): nat
    requires t < |tables|
  {
    Start(tables, t) + |DataGroups(tables[t])|
  }

  function EmptyCandidate(tables: Tables, t: nat): nat
    requires t < |tables|
  {
    if tables[t] == [] then Start(tables, t) + 1 else Phantom(tables, t)
  }

  lemma {:induction false} StartGrows(tables: Tables, t: nat, u: nat)
    requires t < u <= |tables|
    ensures Start(tables, t) + 1 + TablePageTotal(tables[t]) <= Start(tables, u)
    decreases u
  {
    if t < u - 1 { StartGrows(tables, t, u - 1); }
  }

  // ---- Pages ---------------------------------------------------------------------

  predicate IsIndexed(pageType: nat) {
    pageType == TRACKS || pageType == HISTORY
  }

  // Bytes 0x00-0x1F of an index page.
  function IndexLinks(index: nat): (r: bytes)
    ensures |r| == 32
  {
    Zeros(4) + LE32(index) + LE32(index / 2) + LE32(index + 1) + LE32(1) + Zeros(7) + [0x64] + Zeros(4)
  }

  // Bytes 0x20-0x3B.
  function IndexHead(index: nat, indexed: bool, next: nat): (r: bytes)
    ensures |r| == 28
  {
    LE32(if indexed then 1 else 0x1FFF_1FFF) + LE16(0x03EC) + LE16(if indexed then 1 else 0)
    + LE32(index) + LE32(next) + LE32(0x03FF_FFFF) + Zeros(4)
    + LE16(if indexed then 1 else 0) + LE16(0x1FFF)
  }

  function Fill(n: nat): (r: bytes)
    ensures |r| == 4 * n
  {
    if n == 0 then [] else Fill(n - 1) + LE32(0x1FFF_FFF8)
  }

  // Only tracks and history have an index entry; its value is fixed per table.
  function IndexEntries(pageType: nat): (r: bytes)
    ensures |r| == 4016
  {
    if pageType == TRACKS then LE32(19) + Fill(1003)
    else if pageType == HISTORY then LE32(323) + Fill(1003)
    else Fill(1004)
  }

  function IndexPage(index: nat, pageType: nat, dataPage: nat, hasData: bool): (r: bytes)
    ensures |r| == PAGE_SIZE
  {
    IndexLinks(index)
    + IndexHead(index, IsIndexed(pageType), if hasData then dataPage else EMPTY_TABLE_MARKER)
    + IndexEntries(pageType) + Zeros(20)
  }

  function TablePointer(tables: Tables, t: nat): (r: bytes)
    requires t < |tables|
    ensures |r| == 16
  {
    LE32(t) + LE32(EmptyCandidate(tables, t)) + LE32(Start(tables, t)) + LE32(LastPage(tables, t))
  }

  function TablePointers(tables: Tables, n: nat): (r: bytes)
    requires n <= |tables|
    ensures |r| == 16 * n
  {
    if n == 0 then [] else TablePointers(tables, n - 1) + TablePointer(tables, n - 1)
  }

  function HeaderFields(tableCount: nat, nextUnused: nat, trackCount: nat, sequence: nat): (r: bytes)
    ensures |r| == 28
  {
    Zeros(4) + LE32(PAGE_SIZE) + LE32(tableCount) + LE32(nextUnused) + LE32(trackCount) + LE32(sequence) + Zeros(4)
  }

  function HeaderPage(tables: Tables, trackCount: nat): (r: bytes)
    requires |tables| == TABLE_COUNT
    ensures |r| == PAGE_SIZE
  {
    HeaderFields(TABLE_COUNT, NextUnused(tables), trackCount, FirstSequence(tables, TABLE_COUNT))
    + TablePointers(tables, TABLE_COUNT) + Zeros(PAGE_SIZE - 28 - 16 * TABLE_COUNT)
  }

  // next_page of data page j out of n that start at page number first: its successor,
  // or the page that ends the chain.
  function NextPage(first: nat, j: nat, n: nat, chainEnd: nat): nat {
    if j + 1 < n then first + j + 1 else chainEnd
  }

  function NthDataPage(first: nat, pageType: nat, sequence: nat, chainEnd: nat, groups: seq<seq<Row>>,
                       j: nat): (p: bytes)
    requires AllWritten(groups) && j < |groups|
    ensures |p| == PAGE_SIZE
  {
    assert Written(groups[j]);
    DataPage(first + j, pageType, NextPage(first, j, |groups|, chainEnd), sequence + j, groups[j])
  }

  function DataPagesOf(first: nat, pageType: nat, sequence: nat, chainEnd: nat, groups: seq<seq<Row>>): (r: seq<bytes>)
    requires AllWritten(groups)
    ensures |r| == |groups|
    ensures forall j :: 0 <= j < |r| ==> r[j] == NthDataPage(first, pageType, sequence, chainEnd, groups, j)
  {
    seq(|groups|, j requires 0 <= j < |groups| => NthDataPage(first, pageType, sequence, chainEnd, groups, j))
  }

  // Index page and data pages of one table, its index page at page number start.
  function TablePages(start: nat, pageType: nat, sequence: nat, chainEnd: nat, rows: seq<Row>): (r: seq<bytes>)
    requires AllFit(rows)
    ensures |r| == 1 + TablePageTotal(rows)
    ensures forall j :: 0 <= j < |r| ==> |r[j]| == PAGE_SIZE
  {
    DataGroupsKeep(rows);
    [IndexPage(start, pageType, start + 1, rows != [])]
    + if rows == [] then [Zeros(PAGE_SIZE)] else DataPagesOf(start + 1, pageType, sequence, chainEnd, DataGroups(rows))
  }

  predicate AllTablesFit(tables: Tables) {
    forall t :: 0 <= t < |tables| ==> AllFit(tables[t])
  }

  // The pages of table t are in place, its chain ending at chainEnd.
  predicate TableInPlace(pages: seq<bytes>, tables: Tables, t: nat, chainEnd: nat)
    requires t < |tables| && AllFit(tables[t])
  {
    && Start(tables, t + 1) <= |pages|
    && pages[Start(tables, t)..Start(tables, t + 1)]
       == TablePages(Start(tables, t), t, FirstSequence(tables, t), chainEnd, tables[t])
  }

  // What a built file holds, page by page.
  predicate FileImage(pages: seq<bytes>, tables: Tables, trackCount: nat)
    requires |tables| == TABLE_COUNT && AllTablesFit(tables)
  {
    && |pages| == PageCount(tables)
    && pages[0] == HeaderPage(tables, trackCount)
    && forall t :: 0 <= t < TABLE_COUNT ==> TableInPlace(pages, tables, t, Phantom(tables, t))
  }

  // The pages of a built file, in order.
  function FilePages(tables: Tables, trackCount: nat): (pages: seq<bytes>)
    requires |tables| == TABLE_COUNT && AllTablesFit(tables)
    ensures |pages| == PageCount(tables)
  {
    [HeaderPage(tables, trackCount)] + PagesUpTo(tables, TABLE_COUNT)
  }

  function PagesUpTo(tables: Tables, n: nat): (pages: seq<bytes>)
    requires n <= |tables| && AllTablesFit(tables)
    ensures |pages| == Start(tables, n) - 1
  {
    if n == 0 then []
    else PagesUpTo(tables, n - 1)
         + TablePages(Start(tables, n - 1), n - 1, FirstSequence(tables, n - 1), Phantom(tables, n - 1), tables[n - 1])
  }

  lemma {:induction false} TableInPagesUpTo(tables: Tables, n: nat, t: nat)
    requires t < n <= |tables| && AllTablesFit(tables)
    ensures Start(tables, t + 1) <= Start(tables, n)
    ensures PagesUpTo(tables, n)[Start(tables, t) - 1..Start(tables, t + 1) - 1]
         == TablePages(Start(tables, t), t, FirstSequence(tables, t), Phantom(tables, t), tables[t])
  {
    hide TablePages, FirstSequence, Phantom, AllFit, TablePageTotal;
    var before := PagesUpTo(tables, n - 1);
    var last := TablePages(Start(tables, n - 1), n - 1, FirstSequence(tables, n - 1), Phantom(tables, n - 1),
      tables[n - 1]);
    assert PagesUpTo(tables, n) == before + last;
    if t < n - 1 {
      TableInPagesUpTo(tables, n - 1, t);
      assert (before + last)[Start(tables, t) - 1..Start(tables, t + 1) - 1]
        == before[Start(tables, t) - 1..Start(tables, t + 1) - 1];
    } else {
      assert (before + last)[|before|..|before| + |last|] == last;
    }
  }

  lemma FilePagesAreAnImage(tables: Tables, trackCount: nat)
    requires |tables| == TABLE_COUNT && AllTablesFit(tables)
    ensures FileImage(FilePages(tables, trackCount), tables, trackCount)
  {
    hide TablePages, FirstSequence, Phantom, HeaderPage, PagesUpTo, AllFit, TablePageTotal;
    var pages, body := FilePages(tables, trackCount), PagesUpTo(tables, TABLE_COUNT);
    forall t | 0 <= t < TABLE_COUNT
      ensures TableInPlace(pages, tables, t, Phantom(tables, t))
    {
      TableInPagesUpTo(tables, TABLE_COUNT, t);
      assert pages[Start(tables, t)..Start(tables, t + 1)] == body[Start(tables, t) - 1..Start(tables, t + 1) - 1];
    }
  }

  // A built file has no room for anything else: the image determines every page.
  lemma ImageIsUnique(pages: seq<bytes>, pages': seq<bytes>, tables: Tables, trackCount: nat)
    requires |tables| == TABLE_COUNT && AllTablesFit(tables)
    requires FileImage(pages, tables, trackCount) && FileImage(pages', tables, trackCount)
    ensures pages == pages'
  {
    hide TablePages, FirstSequence, Phantom, HeaderPage, Start, AllFit;
    forall p | 0 <= p < |pages|
      ensures pages[p] == pages'[p]
    {
      if p > 0 {
        EveryPageHasATable(tables, TABLE_COUNT, p);
        var t :| 0 <= t < TABLE_COUNT && Start(tables, t) <= p < Start(tables, t + 1);
        assert TableInPlace(pages, tables, t, Phantom(tables, t)) &&
          TableInPlace(pages', tables, t, Phantom(tables, t));
        assert pages[p] == pages[Start(tables, t)..Start(tables, t + 1)][p - Start(tables, t)];
        assert pages'[p] == pages'[Start(tables, t)..Start(tables, t + 1)][p - Start(tables, t)];
      }
    }
  }

  // The source's page and sequence counters are u32; these files stay within them.
  predicate FitsCounters(tables: Tables) {
    NextUnused(tables) < U32_LIMIT
  }

  // ---- The page graph --------------------------------------------------------------

  // Pages 1..page count are partitioned into the tables' runs.
  lemma {:induction false} EveryPageHasATable(tables: Tables, n: nat, p: nat)
    requires n <= |tables| && 1 <= p < Start(tables, n)
    ensures exists t :: 0 <= t < n && Start(tables, t) <= p < Start(tables, t + 1)
  {
    if p < Start(tables, n - 1) {
      EveryPageHasATable(tables, n - 1, p);
    } else {
      assert Start(tables, n - 1) <= p < Start(tables, (n - 1) + 1);
    }
  }

  lemma OnlyOneTable(tables: Tables, t: nat, u: nat, p: nat)
    requires t < |tables| && u < |tables|
    requires Start(tables, t) <= p < Start(tables, t + 1) && Start(tables, u) <= p < Start(tables, u + 1)
    ensures t == u
  {
    if t < u { StartGrows(tables, t, u); }
    if u < t { StartGrows(tables, u, t); }
  }

  lemma {:induction false} DataTablesGrow(tables: Tables, t: nat, u: nat)
    requires t < u <= |tables|
    ensures DataTables(tables, t) + (if tables[t] == [] then 0 else 1) <= DataTables(tables, u)
    decreases u
  {
    if t < u - 1 { DataTablesGrow(tables, t, u - 1); }
  }

  // The page ending a data table's chain is past every real page, its own alone, and
  // below next_unused_page; an empty table's candidate is its own zeroed page.
  lemma ChainEndsDistinct(tables: Tables, t: nat, u: nat)
    requires t < u < |tables|
    ensures tables[t] != [] ==> PageCount(tables) <= Phantom(tables, t) < NextUnused(tables)
    ensures tables[u] != [] ==> PageCount(tables) <= Phantom(tables, u) < NextUnused(tables)
    ensures EmptyCandidate(tables, t) != EmptyCandidate(tables, u)
  {
    DataTablesGrow(tables, t, u);
    DataTablesGrow(tables, t, |tables|);
    DataTablesGrow(tables, u, |tables|);
    StartGrows(tables, t, u);
    StartGrows(tables, t, |tables|);
    StartGrows(tables, u, |tables|);
  }
}
