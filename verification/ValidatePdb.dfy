// crates/bvault-core/src/validate.rs: the whole validator, and exactly what it reports on
// the files the writer builds.
module ValidatePdb {
  import opened Wrappers
  import opened Bytes
  import opened Page
  import opened PageReader
  import opened Layout
  import opened FileReader
  import opened Validator

  datatype PageFault = IndexMismatch | UnexpectedFlags | UsedTooLarge

  datatype Finding =
    | TooSmall
    | NotPageAligned
    | WrongPageSize
    | ManyTables
    | NextUnusedBeyondFile
    | PointerBeyondHeader(i: nat)
    | FirstPageBeyondFile(i: nat)
    | LastPageBeyondFile(i: nat)
    | BadPage(p: nat, fault: PageFault)

  // counts: rows per table type, for the types that are counted.
  datatype Report = Report(errors: seq<Finding>, warnings: seq<Finding>, totalPages: nat, counts: map<nat, nat>) {
    predicate IsValid() {
      errors == []
    }

    function WithError(f: Finding): Report {
      this.(errors := errors + [f])
    }

    function WithWarning(f: Finding): Report {
      this.(warnings := warnings + [f])
    }
  }

  const EMPTY_REPORT := Report([], [], 0, map[])

  predicate IsCounted(tableType: nat) {
    tableType in {TRACKS, 1, 2, 3, 5, 7, 8}
  }

  // ---- Table pointers -----------------------------------------------------------------------

  function Field(file: bytes, i: nat, at: nat): nat
    requires PageTotal(file) >= 1 && 28 + 16 * i + 16 <= PAGE_SIZE && at <= 12
  {
    Get32(PageAt(file, 0), 28 + 16 * i + at)
  }

  ghost function CheckPointer(file: bytes, i: nat, r: Report): Report
    requires PageTotal(file) >= 1 && 28 + 16 * i + 16 <= PAGE_SIZE
  {
    var total := PageTotal(file);
    var tableType, first, last := Field(file, i, 0), Field(file, i, 8), Field(file, i, 12);
    if first != 0 && first >= total then r.WithError(FirstPageBeyondFile(i))
    else if last != NO_NEXT && last >= total then r.WithError(LastPageBeyondFile(i))
    else if first > 0 && IsCounted(tableType) then
      r.(counts := r.counts[tableType := CountFrom(file, total, first, {})])
    else r
  }

  ghost function CheckPointers(file: bytes, i: nat, n: nat, r: Report): Report
    requires PageTotal(file) >= 1
    decreases n - i
  {
    if i >= n then r
    else if 28 + 16 * i + 16 > PAGE_SIZE then r.WithError(PointerBeyondHeader(i))
    else CheckPointers(file, i + 1, n, CheckPointer(file, i, r))
  }

  // ---- Pages -----------------------------------------------------------------------------------

  function FaultOf(page: bytes, expected: nat): Option<PageFault>
    requires |page| == PAGE_SIZE
  {
    if PageIndexOf(page) != expected then Some(IndexMismatch)
    else if page[27] !in {0x34, 0x00, 0x24, 0x64} then Some(UnexpectedFlags)
    else if Get16(page, 30) > PAGE_SIZE - HEAP_START then Some(UsedTooLarge)
    else None
  }

  // The warnings for pages lo .. hi - 1.
  function PageWarnings(file: bytes, lo: nat, hi: nat): seq<Finding>
    requires hi <= PageTotal(file)
    decreases hi
  {
    if hi <= lo then []
    else
      PageWarnings(file, lo, hi - 1)
      + match FaultOf(PageAt(file, hi - 1), hi - 1)
        case None => []
        case Some(fault) => [BadPage(hi - 1, fault)]
  }

  // ---- The validator ----------------------------------------------------------------------------

  method Validate(file: bytes) returns (r: Report)
    requires PageTotal(file) < U32_LIMIT
    ensures |file| < PAGE_SIZE ==> r == EMPTY_REPORT.WithError(TooSmall)
    ensures |file| >= PAGE_SIZE && |file| % PAGE_SIZE != 0 ==> r == EMPTY_REPORT.WithError(NotPageAligned)
    ensures |file| >= PAGE_SIZE && |file| % PAGE_SIZE == 0 ==> PageTotal(file) >= 1 && r == ReportOn(file)
    ensures r.IsValid() <==> Sound(file)
  {
    hide PageAt, Get32, FaultOf, CheckPointer, CountFrom, PointerSound, Word;
    r := EMPTY_REPORT;
    if |file| < PAGE_SIZE {
      return r.WithError(TooSmall);
    }
    if |file| % PAGE_SIZE != 0 {
      return r.WithError(NotPageAligned);
    }
    AcceptedExactly(file);
    var total := |file| / PAGE_SIZE;
    var header := PageAt(file, 0);
    if Get32(header, 4) != PAGE_SIZE {
      return r.WithError(WrongPageSize);
    }
    var numTables := Get32(header, 8);
    if numTables > 20 {
      r := r.WithWarning(ManyTables);
    }
    var nextUnused := Get32(header, 12);
    r := r.(totalPages := nextUnused);
    if nextUnused > total {
      r := r.WithError(NextUnusedBeyondFile);
    }
    assert r == HeaderReport(file);
    r := WalkPointers(file, numTables, r);
    var warnings: seq<Finding> := [];
    for p := 1 to total
      invariant warnings == PageWarnings(file, 1, p)
    {
      var fault := FaultOf(PageAt(file, p), p);
      if fault.Some? {
        warnings := warnings + [BadPage(p, fault.value)];
      }
    }
    r := r.(warnings := r.warnings + warnings);
  }

  // What the header page alone gives.
  function HeaderReport(file: bytes): Report
    requires PageTotal(file) >= 1
  {
    var header := PageAt(file, 0);
    Report(
      if Get32(header, 12) > PageTotal(file) then [NextUnusedBeyondFile] else [],
      if Get32(header, 8) > 20 then [ManyTables] else [],
      Get32(header, 12), map[])
  }

  ghost function ReportOn(file: bytes): Report
    requires PageTotal(file) >= 1
  {
    var header := PageAt(file, 0);
    if Get32(header, 4) != PAGE_SIZE then EMPTY_REPORT.WithError(WrongPageSize)
    else
      var r := CheckPointers(file, 0, Get32(header, 8), HeaderReport(file));
      r.(warnings := r.warnings + PageWarnings(file, 1, PageTotal(file)))
  }

  method WalkPointers(file: bytes, numTables: nat, start: Report) returns (r: Report)
    requires 1 <= PageTotal(file) < U32_LIMIT
    ensures r == CheckPointers(file, 0, numTables, start)
  {
    hide PageAt, Get32, CountFrom;
    r := start;
    var i := 0;
    while i < numTables
      invariant i <= numTables && CheckPointers(file, i, numTables, r) == CheckPointers(file, 0, numTables, start)
    {
      if 28 + 16 * i + 16 > PAGE_SIZE {
        return r.WithError(PointerBeyondHeader(i));
      }
      r := WalkPointer(file, i, r);
      i := i + 1;
    }
  }

  method WalkPointer(file: bytes, i: nat, start: Report) returns (r: Report)
    requires 1 <= PageTotal(file) < U32_LIMIT && 28 + 16 * i + 16 <= PAGE_SIZE
    ensures r == CheckPointer(file, i, start)
  {
    hide PageAt, Get32, CountFrom;
    var total := PageTotal(file);
    var tableType, first, last := Field(file, i, 0), Field(file, i, 8), Field(file, i, 12);
    r := start;
    if first != 0 && first >= total {
      return r.WithError(FirstPageBeyondFile(i));
    }
    if last != NO_NEXT && last >= total {
      return r.WithError(LastPageBeyondFile(i));
    }
    if 0 < first < total {
      var rows := CountTableRows(file, first, total);
      if IsCounted(tableType) {
        r := r.(counts := r.counts[tableType := rows]);
      }
    }
  }

  // ---- What it says of any file ------------------------------------------------------------------

  // The 32-bit number at a position of the file.
  function Word(file: bytes, at: nat): nat
    requires at + 4 <= |file|
  {
    Get32(file, at)
  }

  // A table pointer lies in the header page and names no page beyond the file.
  predicate PointerSound(file: bytes, i: nat)
    requires |file| >= 4096
  {
    && 28 + 16 * i + 16 <= 4096
    && (Word(file, 28 + 16 * i + 8) != 0 ==> Word(file, 28 + 16 * i + 8) < |file| / 4096)
    && (Word(file, 28 + 16 * i + 12) != 0xFFFF_FFFF ==> Word(file, 28 + 16 * i + 12) < |file| / 4096)
  }

  predicate Sound(file: bytes) {
    && |file| >= 4096 && |file| % 4096 == 0 && Word(file, 4) == 4096
    && Word(file, 12) <= |file| / 4096
    && forall i :: 0 <= i < Word(file, 8) ==> PointerSound(file, i)
  }

  lemma HeaderWord(file: bytes, at: nat)
    requires PageTotal(file) >= 1 && at + 4 <= 4096
    ensures Get32(PageAt(file, 0), at) == Word(file, at)
  {
    var page := PageAt(file, 0);
    assert page[at] == file[at] && page[at + 1] == file[at + 1];
    assert page[at + 2] == file[at + 2] && page[at + 3] == file[at + 3];
  }

  lemma PointerErrors(file: bytes, i: nat, r: Report)
    requires PageTotal(file) >= 1 && 28 + 16 * i + 16 <= PAGE_SIZE
    ensures var after := CheckPointer(file, i, r);
      r.errors <= after.errors && (after.errors == r.errors <==> PointerSound(file, i))
  {
    hide PageAt, Get32, CountFrom, Word;
    HeaderWord(file, 28 + 16 * i + 8);
    HeaderWord(file, 28 + 16 * i + 12);
  }

  lemma {:induction false} PointersErrors(file: bytes, i: nat, n: nat, r: Report)
    requires PageTotal(file) >= 1
    ensures var after := CheckPointers(file, i, n, r);
      r.errors <= after.errors && (after.errors == r.errors <==> forall k :: i <= k < n ==> PointerSound(file, k))
    decreases n - i
  {
    hide CheckPointer, PageAt, Word;
    if i < n && 28 + 16 * i + 16 <= PAGE_SIZE {
      PointerErrors(file, i, r);
      PointersErrors(file, i + 1, n, CheckPointer(file, i, r));
    } else if i < n {
      assert !PointerSound(file, i);
    }
  }

  // The validator accepts a file exactly when it is whole pages with the right page size,
  // and neither next_unused_page nor any table pointer leads beyond it.
  lemma AcceptedExactly(file: bytes)
    requires PageTotal(file) >= 1 && |file| % PAGE_SIZE == 0
    ensures ReportOn(file).IsValid() <==> Sound(file)
  {
    hide PageAt, Get32, CheckPointers, PageWarnings, PointerSound, Word;
    HeaderWord(file, 4);
    HeaderWord(file, 8);
    HeaderWord(file, 12);
    PointersErrors(file, 0, Word(file, 8), HeaderReport(file));
  }

  // When pointer i is the reason for an error: pointers after the 254th lie beyond the
  // header page, and looking at them ends the loop; a pointer is blamed for one page only.
  predicate Blamed(file: bytes, n: nat, f: Finding)
    requires |file| >= 4096
  {
    match f
    case PointerBeyondHeader(i) => i == 254 < n
    case FirstPageBeyondFile(i) =>
      i < n && i < 254 && Word(file, 28 + 16 * i + 8) != 0 && Word(file, 28 + 16 * i + 8) >= |file| / 4096
    case LastPageBeyondFile(i) =>
      && i < n && i < 254
      && (Word(file, 28 + 16 * i + 8) == 0 || Word(file, 28 + 16 * i + 8) < |file| / 4096)
      && Word(file, 28 + 16 * i + 12) != 0xFFFF_FFFF && Word(file, 28 + 16 * i + 12) >= |file| / 4096
    case _ => false
  }

  function PointerOf(f: Finding): nat {
    match f
    case PointerBeyondHeader(i) => i
    case FirstPageBeyondFile(i) => i
    case LastPageBeyondFile(i) => i
    case _ => 0
  }

  lemma PointerBlame(file: bytes, i: nat, n: nat, r: Report, f: Finding)
    requires PageTotal(file) >= 1 && i < 254 && i < n
    ensures f in CheckPointer(file, i, r).errors <==> f in r.errors || (PointerOf(f) == i && Blamed(file, n, f))
  {
    hide PageAt, Get32, CountFrom, Word;
    HeaderWord(file, 28 + 16 * i + 8);
    HeaderWord(file, 28 + 16 * i + 12);
  }

  lemma {:induction false} PointersBlame(file: bytes, i: nat, n: nat, r: Report, f: Finding)
    requires PageTotal(file) >= 1 && i <= 254
    ensures f in CheckPointers(file, i, n, r).errors <==> f in r.errors || (PointerOf(f) >= i && Blamed(file, n, f))
    decreases n - i
  {
    hide CheckPointer, PageAt, Word;
    if i < n && i < 254 {
      PointerBlame(file, i, n, r, f);
      PointersBlame(file, i + 1, n, CheckPointer(file, i, r), f);
    }
  }

  // The errors of any file of whole pages, one by one.
  lemma ErrorsExactly(file: bytes, f: Finding)
    requires PageTotal(file) >= 1 && |file| % PAGE_SIZE == 0
    ensures f in ReportOn(file).errors <==>
      || (f == WrongPageSize && Word(file, 4) != 4096)
      || (Word(file, 4) == 4096 && f == NextUnusedBeyondFile && Word(file, 12) > |file| / 4096)
      || (Word(file, 4) == 4096 && Blamed(file, Word(file, 8), f))
  {
    hide PageAt, Get32, CheckPointers, PageWarnings, Word;
    HeaderWord(file, 4);
    HeaderWord(file, 8);
    HeaderWord(file, 12);
    PointersBlame(file, 0, Word(file, 8), HeaderReport(file), f);
  }

  // So a file that is cut off before the page its header promises next is never accepted.
  lemma CutFilesAreReported(file: bytes, n: nat)
    requires |file| >= 4096 && n <= |file| && n < 4096 * Word(file, 12)
    ensures !Sound(file[..n])
  {
    hide PointerSound;
    if n >= 4096 {
      assert forall k :: 0 <= k < n ==> file[..n][k] == file[k];
      assert Word(file[..n], 12) == Word(file, 12);
      if n % 4096 == 0 {
        assert n / 4096 * 4096 == n;
      }
    }
  }

  // A page is warned of exactly when its number, its class or its used size is wrong.
  predicate PageSound(file: bytes, p: nat)
    requires 4096 * p + 4096 <= |file|
  {
    && Word(file, 4096 * p + 4) == p && file[4096 * p + 27] in {0x34, 0x00, 0x24, 0x64}
    && Get16(file, 4096 * p + 30) <= 4056
  }

  lemma FaultExactly(file: bytes, p: nat)
    requires p < PageTotal(file)
    ensures 4096 * p + 4096 <= |file| && (FaultOf(PageAt(file, p), p) == None <==> PageSound(file, p))
  {
    var page, at := PageAt(file, p), 4096 * p;
    assert at + 4096 <= |file|;
    assert page[4] == file[at + 4] && page[5] == file[at + 5] && page[6] == file[at + 6] && page[7] == file[at + 7];
    assert page[27] == file[at + 27] && page[30] == file[at + 30] && page[31] == file[at + 31];
  }

  lemma {:induction false} WarningsExactly(file: bytes, lo: nat, hi: nat, p: nat)
    requires lo <= p < hi <= PageTotal(file)
    ensures 4096 * p + 4096 <= |file|
    ensures !PageSound(file, p) <==> exists fault :: BadPage(p, fault) in PageWarnings(file, lo, hi)
    decreases hi
  {
    hide FaultOf, PageAt, PageSound;
    FaultExactly(file, p);
    if p == hi - 1 {
      EarlierPages(file, lo, hi - 1, p);
      if !PageSound(file, p) {
        assert BadPage(p, FaultOf(PageAt(file, p), p).value) in PageWarnings(file, lo, hi);
      }
    } else {
      WarningsExactly(file, lo, hi - 1, p);
    }
  }

  lemma {:induction false} EarlierPages(file: bytes, lo: nat, hi: nat, p: nat)
    requires hi <= p && hi <= PageTotal(file)
    ensures forall fault :: BadPage(p, fault) !in PageWarnings(file, lo, hi)
    decreases hi
  {
    hide FaultOf, PageAt;
    if hi > lo { EarlierPages(file, lo, hi - 1, p); }
  }

  // ---- What it says of a built file ---------------------------------------------------------------

  // From pointer i on: no error, and each counted table's row count.
  lemma {:induction false} PointersOfBuilt(pages: seq<bytes>, tables: Tables, trackCount: nat, i: nat, r: Report)
    requires |tables| == TABLE_COUNT && AllTablesFit(tables) && FileImage(pages, tables, trackCount)
    requires FitsCounters(tables) && i <= TABLE_COUNT
    ensures PageTotal(Concat(pages)) >= 1
    ensures var end := CheckPointers(Concat(pages), i, TABLE_COUNT, r);
      && end.errors == r.errors && end.warnings == r.warnings && end.totalPages == r.totalPages
      && (forall t :: i <= t < TABLE_COUNT && IsCounted(t) ==> t in end.counts && end.counts[t] == |tables[t]|)
      && (forall t :: t in r.counts && t < i ==> t in end.counts && end.counts[t] == r.counts[t])
    decreases TABLE_COUNT - i
  {
    hide FileImage, FitsCounters, CheckPointer, PageTotal, AllTablesFit, Concat, IsCounted;
    BuiltHasPages(pages, tables, trackCount);
    if i < TABLE_COUNT {
      PointerOfBuilt(pages, tables, trackCount, i, r);
      PointersOfBuilt(pages, tables, trackCount, i + 1, CheckPointer(Concat(pages), i, r));
    }
  }

  lemma BuiltHasPages(pages: seq<bytes>, tables: Tables, trackCount: nat)
    requires |tables| == TABLE_COUNT && AllTablesFit(tables) && FileImage(pages, tables, trackCount)
    ensures PageTotal(Concat(pages)) >= 1
  {
    hide FileImage, AllTablesFit, Concat, PageTotal, PageAt, HeaderPage, IndexPage, DataPagesAt;
    TableAt(pages, tables, trackCount, 0);
  }

  lemma PointerOfBuilt(pages: seq<bytes>, tables: Tables, trackCount: nat, i: nat, r: Report)
    requires |tables| == TABLE_COUNT && AllTablesFit(tables) && FileImage(pages, tables, trackCount)
    requires FitsCounters(tables) && i < TABLE_COUNT
    ensures PageTotal(Concat(pages)) >= 1
    ensures CheckPointer(Concat(pages), i, r) == if IsCounted(i) then r.(counts := r.counts[i := |tables[i]|]) else r
  {
    hide FileImage, FitsCounters, PageTotal, PageAt, HeaderPage, AllTablesFit, Concat, CountFrom, IsCounted,
         Start, DataPagesAt, DataGroups, IndexPage, Phantom, FirstSequence, EmptyCandidate, LastPage,
         NextUnused, Get32;
    TableAt(pages, tables, trackCount, i);
    HeaderPageReads(tables, trackCount, i);
    PointerBounds(tables, i);
    CountsEveryTable(pages, tables, trackCount, i);
  }

  lemma IndexPageIsFine(index: nat, pageType: nat, dataPage: nat, hasData: bool)
    requires index + 1 < U32_LIMIT
    ensures FaultOf(IndexPage(index, pageType, dataPage, hasData), index) == None
  {
    hide IndexHead, IndexEntries, LE32, Get32;
    IndexPageReads(index, pageType, dataPage, hasData);
    var page, links := IndexPage(index, pageType, dataPage, hasData), IndexLinks(index);
    assert page[0..32] == links;
    assert page[27] == links[27] == 0x64 && page[30] == links[30] == 0 && page[31] == links[31] == 0;
  }

  lemma DataPageIsFine(index: nat, pageType: nat, next: nat, sequence: nat, rows: seq<Row>)
    requires Written(rows) && index < U32_LIMIT && pageType < U32_LIMIT && next < U32_LIMIT && sequence < U32_LIMIT
    ensures FaultOf(DataPage(index, pageType, next, sequence, rows), index) == None
  {
    hide DataPage, Written, PageIndexOf, TypeOf, NextOf, SequenceOf, NumRows, NumRowOffsets, IsIndexPage,
         PackedCounts, Get16, Get24, Heap;
    HeaderReads(index, pageType, next, sequence, rows);
    EndOfHeap(rows);
  }

  lemma ZeroPageIsNot(p: nat)
    requires p > 0
    ensures FaultOf(Zeros(PAGE_SIZE), p) == Some(IndexMismatch)
  {}

  // A warning for the zeroed page of each empty table among the first n.
  function ZeroedPages(tables: Tables, n: nat): seq<Finding>
    requires n <= |tables|
  {
    if n == 0 then []
    else ZeroedPages(tables, n - 1) + if tables[n - 1] == [] then [BadPage(Start(tables, n - 1) + 1, IndexMismatch)]
      else []
  }

  lemma {:induction false} WarningsJoin(file: bytes, a: nat, b: nat, c: nat)
    requires a <= b <= c <= PageTotal(file)
    ensures PageWarnings(file, a, c) == PageWarnings(file, a, b) + PageWarnings(file, b, c)
    decreases c
  {
    hide FaultOf, PageAt, PageTotal;
    if b < c { WarningsJoin(file, a, b, c - 1); }
  }

  // The data pages of a table raise no warning.
  lemma {:induction false} DataPagesAreFine(file: bytes, start: nat, pageType: nat, sequence: nat, chainEnd: nat,
                                            groups: seq<seq<Row>>, k: nat)
    requires DataPagesAt(file, start, pageType, sequence, chainEnd, groups) && k <= |groups|
    requires pageType < U32_LIMIT && start + 1 + |groups| < U32_LIMIT && chainEnd < U32_LIMIT
    requires sequence + |groups| < U32_LIMIT
    ensures start + 1 + k <= PageTotal(file) && PageWarnings(file, start + 1, start + 1 + k) == []
  {
    hide FaultOf, PageAt, PageTotal, DataPage, NextPage, Written;
    if k > 0 {
      DataPagesAreFine(file, start, pageType, sequence, chainEnd, groups, k - 1);
      assert Written(groups[k - 1]);
      var next := NextPage(start + 1, k - 1, |groups|, chainEnd);
      NextBound(start + 1, k - 1, |groups|, chainEnd);
      DataPageIsFine(start + k, pageType, next, sequence + k - 1, groups[k - 1]);
      assert start + 1 + (k - 1) == start + k;
    }
  }

  lemma TableWarnings(pages: seq<bytes>, tables: Tables, trackCount: nat, t: nat)
    requires |tables| == TABLE_COUNT && AllTablesFit(tables) && FileImage(pages, tables, trackCount)
    requires FitsCounters(tables) && t < TABLE_COUNT
    ensures Start(tables, t) < Start(tables, t + 1) <= PageTotal(Concat(pages))
    ensures PageWarnings(Concat(pages), Start(tables, t), Start(tables, t + 1))
      == if tables[t] == [] then [BadPage(Start(tables, t) + 1, IndexMismatch)] else []
  {
    hide FaultOf, PageAt, PageTotal, HeaderPage, IndexPage, DataPagesAt, DataGroups, FirstSequence, Phantom,
         FileImage, FitsCounters, Concat, AllTablesFit, TablePageTotal;
    TableAt(pages, tables, trackCount, t);
    CounterBounds(tables, t);
    GroupCount(tables[t]);
    var file, start := Concat(pages), Start(tables, t);
    IndexPageIsFine(start, t, start + 1, tables[t] != []);
    assert PageWarnings(file, start, start + 1) == [];
    WarningsJoin(file, start, start + 1, Start(tables, t + 1));
    if tables[t] == [] {
      ZeroPageIsNot(start + 1);
    } else {
      DataPagesAreFine(file, start, t, FirstSequence(tables, t), Phantom(tables, t), DataGroups(tables[t]),
        |DataGroups(tables[t])|);
    }
  }

  lemma {:induction false} WarningsOfBuilt(pages: seq<bytes>, tables: Tables, trackCount: nat, n: nat)
    requires |tables| == TABLE_COUNT && AllTablesFit(tables) && FileImage(pages, tables, trackCount)
    requires FitsCounters(tables) && n <= TABLE_COUNT
    ensures Start(tables, n) <= PageTotal(Concat(pages))
    ensures PageWarnings(Concat(pages), 1, Start(tables, n)) == ZeroedPages(tables, n)
  {
    hide PageTotal, FileImage, FitsCounters, Concat, AllTablesFit, PageWarnings, Start, HeaderPage, IndexPage,
         DataPagesAt, DataGroups, PageAt, FirstSequence, Phantom;
    TableAt(pages, tables, trackCount, 0);
    if n == 0 {
      StartsAtOne(tables);
      NoWarnings(Concat(pages));
    } else {
      WarningsOfBuilt(pages, tables, trackCount, n - 1);
      TableWarnings(pages, tables, trackCount, n - 1);
      WarningsJoin(Concat(pages), 1, Start(tables, n - 1), Start(tables, n));
    }
  }

  lemma StartsAtOne(tables: Tables)
    ensures Start(tables, 0) == 1
  {}

  lemma NoWarnings(file: bytes)
    requires PageTotal(file) >= 1
    ensures PageWarnings(file, 1, 1) == []
  {}

  // The whole report on a built file: one error, that next_unused_page lies beyond the
  // file, unless there are no rows at all; a warning for each empty table's zeroed page
  // and no other; and the exact row counts.
  lemma BuiltFileReport(pages: seq<bytes>, tables: Tables, trackCount: nat)
    requires |tables| == TABLE_COUNT && AllTablesFit(tables) && FileImage(pages, tables, trackCount)
    requires FitsCounters(tables) && trackCount < U32_LIMIT
    ensures PageTotal(Concat(pages)) >= 1
    ensures var r := ReportOn(Concat(pages));
      && r.errors == (if forall t :: 0 <= t < TABLE_COUNT ==> tables[t] == [] then [] else [NextUnusedBeyondFile])
      && r.warnings == ZeroedPages(tables, TABLE_COUNT)
      && r.totalPages == NextUnused(tables)
      && forall t :: 0 <= t < TABLE_COUNT && IsCounted(t) ==> t in r.counts && r.counts[t] == |tables[t]|
  {
    hide PageTotal, PageAt, FileImage, FitsCounters, Concat, AllTablesFit, HeaderPage, Get32, PageWarnings,
         ZeroedPages, CheckPointers, Start, FirstSequence, IndexPage, DataPagesAt, DataGroups, Phantom,
         NextUnused, IsCounted;
    TableAt(pages, tables, trackCount, 0);
    SequenceBound(tables);
    HeaderFieldsRead(tables, trackCount);
    NextUnusedWithinFile(tables);
    PointersOfBuilt(pages, tables, trackCount, 0, HeaderReport(Concat(pages)));
    WarningsOfBuilt(pages, tables, trackCount, TABLE_COUNT);
  }

  lemma SequenceBound(tables: Tables)
    requires FitsCounters(tables)
    ensures FirstSequence(tables, |tables|) < U32_LIMIT
  {
    SequenceBelowStart(tables, |tables|);
  }
}
