// crates/bvault-core/src/validate.rs: the independent walk that counts a table's rows,
// and what it finds in files the writer built.
module Validator {
  import opened Bytes
  import opened Page
  import opened PageReader
  import opened Layout
  import opened FileReader

  // Row count as the validator unpacks it: the upper bits of the packed word, where the
  // writer keeps four times the row count.
  function ValidatorRows(page: bytes): nat
    requires |page| == PAGE_SIZE
  {
    Get24(page, 24) / 0x2000 % 0x800
  }

  // Pages numbered below n.
  function PagesBelow(n: nat): (r: set<nat>)
    ensures |r| == n && forall p: nat :: p in r <==> p < n
  {
    if n == 0 then {} else PagesBelow(n - 1) + {n - 1}
  }

  // Rows counted from page p on: follow next_page until it leaves the first maxPages
  // pages or returns to a visited page.
  ghost function CountFrom(file: bytes, maxPages: nat, p: nat, visited: set<nat>): nat
    requires maxPages <= PageTotal(file)
    decreases |PagesBelow(maxPages) - visited|
  {
    if p >= maxPages || p in visited then 0
    else
      Unvisited(maxPages, visited, p);
      ValidatorRows(PageAt(file, p)) + CountFrom(file, maxPages, NextOf(PageAt(file, p)), visited + {p})
  }

  lemma Unvisited(total: nat, visited: set<nat>, p: nat)
    requires p < total && p !in visited
    ensures |PagesBelow(total) - (visited + {p})| < |PagesBelow(total) - visited|
  {
    assert PagesBelow(total) - visited == (PagesBelow(total) - (visited + {p})) + {p};
  }

  // Terminates on every file, cyclic chains included. The page count is a u32.
  method CountTableRows(file: bytes, firstPage: nat, maxPages: nat) returns (total: nat)
    requires maxPages <= PageTotal(file) && maxPages < U32_LIMIT
    ensures total == CountFrom(file, maxPages, firstPage, {})
  {
    hide PageAt, PageTotal, PagesBelow, Get24, Get32;
    total := 0;
    var current: nat := firstPage;
    var visited: set<nat> := {};
    while current < maxPages && current != NO_NEXT
      invariant total + CountFrom(file, maxPages, current, visited) == CountFrom(file, maxPages, firstPage, {})
      decreases |PagesBelow(maxPages) - visited|
    {
      if current in visited {
        break;
      }
      Unvisited(maxPages, visited, current);
      visited := visited + {current};
      var page := PageAt(file, current);
      var packed := Get24(page, 24);
      total := total + packed / 0x2000 % 0x800;
      current := Get32(page, 12);
    }
  }

  // The pages a walk goes through: each names the next, none comes twice, and the last
  // leads out of the first maxPages pages or back to one of them.
  ghost predicate IsWalk(file: bytes, maxPages: nat, chain: seq<nat>)
    requires maxPages <= PageTotal(file)
  {
    && chain != [] && (forall i :: 0 <= i < |chain| ==> chain[i] < maxPages)
    && (forall i, j :: 0 <= i < j < |chain| ==> chain[i] != chain[j])
    && (forall i :: 0 < i < |chain| ==> chain[i] == NextOf(PageAt(file, chain[i - 1])))
    && (NextOf(PageAt(file, chain[|chain| - 1])) >= maxPages || NextOf(PageAt(file, chain[|chain| - 1])) in chain)
  }

  // The three bytes' upper eleven bits, page by page.
  function RowsAlong(file: bytes, chain: seq<nat>): nat
    requires forall i :: 0 <= i < |chain| ==> chain[i] < PageTotal(file)
  {
    if chain == [] then 0
    else
      var page := PageAt(file, chain[|chain| - 1]);
      RowsAlong(file, chain[..|chain| - 1]) + (page[25] as nat / 32 + 8 * page[26] as nat)
  }

  function Visited(chain: seq<nat>, n: nat): set<nat>
    requires n <= |chain|
  {
    set p | p in chain[..n]
  }

  lemma UpperBits(page: bytes)
    requires |page| == PAGE_SIZE
    ensures ValidatorRows(page) == page[25] as nat / 32 + 8 * page[26] as nat
  {
    var a, b, c := page[24] as nat, page[25] as nat, page[26] as nat;
    assert Get24(page, 24) == a + 256 * b + 65536 * c;
    assert a + 256 * b + 65536 * c == 0x2000 * (b / 32 + 8 * c) + (a + 256 * (b % 32));
  }

  // On any file, well-formed or not, the count is the sum over the pages of the walk.
  lemma CountIsTheWalks(file: bytes, maxPages: nat, chain: seq<nat>)
    requires maxPages <= PageTotal(file) && IsWalk(file, maxPages, chain)
    ensures CountFrom(file, maxPages, chain[0], {}) == RowsAlong(file, chain)
  {
    hide PagesBelow, PageTotal, PageAt, NextOf, CountFrom, RowsAlong;
    CountsWalk(file, maxPages, chain, |chain| - 1);
    var last := NextOf(PageAt(file, chain[|chain| - 1]));
    var seen := Visited(chain, |chain|);
    assert chain[..|chain|] == chain;
    if last < maxPages {
      assert last in seen;
    }
    StopsThere(file, maxPages, last, seen);
    CountGoesOn(file, maxPages, chain, |chain| - 1);
  }

  lemma StopsThere(file: bytes, maxPages: nat, p: nat, visited: set<nat>)
    requires maxPages <= PageTotal(file) && (p >= maxPages || p in visited)
    ensures CountFrom(file, maxPages, p, visited) == 0
  {}

  // What is counted up to page n of the walk.
  lemma {:induction false} CountsWalk(file: bytes, maxPages: nat, chain: seq<nat>, n: nat)
    requires maxPages <= PageTotal(file) && IsWalk(file, maxPages, chain) && n < |chain|
    ensures CountFrom(file, maxPages, chain[0], {})
      == RowsAlong(file, chain[..n]) + CountFrom(file, maxPages, chain[n], Visited(chain, n))
  {
    hide PagesBelow, PageTotal, PageAt, NextOf, CountFrom, RowsAlong;
    if n == 0 {
      NothingYet(file, chain);
      assert Visited(chain, 0) == {};
    } else {
      CountsWalk(file, maxPages, chain, n - 1);
      CountGoesOn(file, maxPages, chain, n - 1);
    }
  }

  lemma NothingYet(file: bytes, chain: seq<nat>)
    ensures RowsAlong(file, chain[..0]) == 0
  {}

  // One page more.
  lemma CountGoesOn(file: bytes, maxPages: nat, chain: seq<nat>, n: nat)
    requires maxPages <= PageTotal(file) && IsWalk(file, maxPages, chain) && n < |chain|
    ensures RowsAlong(file, chain[..n]) + CountFrom(file, maxPages, chain[n], Visited(chain, n))
      == RowsAlong(file, chain[..n + 1])
         + CountFrom(file, maxPages, NextOf(PageAt(file, chain[n])), Visited(chain, n + 1))
  {
    hide PagesBelow, PageTotal, PageAt, NextOf, ValidatorRows;
    assert chain[..n + 1] == chain[..n] + [chain[n]] && chain[..n + 1][..n] == chain[..n];
    assert Visited(chain, n) + {chain[n]} == Visited(chain, n + 1);
    UpperBits(PageAt(file, chain[n]));
  }

  function TotalRows(groups: seq<seq<Row>>): nat {
    if groups == [] then 0 else |groups[0]| + TotalRows(groups[1..])
  }

  lemma {:induction false} TotalRowsIsFlatLength(groups: seq<seq<Row>>)
    ensures TotalRows(groups) == |Flatten(groups)|
  {
    if groups != [] { TotalRowsIsFlatLength(groups[1..]); }
  }

  // The validator shifts by 13 where the row count is in the low 11 bits; it still gets
  // the right number, because four times the count sits above bit 11 and a page never
  // holds 2048 rows.
  lemma ShiftedCount(n: nat)
    requires n <= 1791
    ensures PackedCounts(n) / 0x2000 % 0x800 == n
    ensures PackedCounts(n) % 0x800 == n
  {
    assert PackedCounts(n) == n * 0x2000 + n;
  }

  // From data page j on the validator counts the rows of pages j, j+1, ... and stops,
  // because the last page continues beyond the file.
  lemma {:induction false} CountsDataPages(file: bytes, start: nat, pageType: nat, sequence: nat, chainEnd: nat,
                                           groups: seq<seq<Row>>, j: nat, visited: set<nat>)
    requires DataPagesAt(file, start, pageType, sequence, chainEnd, groups) && j <= |groups|
    requires pageType < U32_LIMIT && start + 1 + |groups| < U32_LIMIT && PageTotal(file) <= chainEnd < U32_LIMIT
    requires sequence + |groups| < U32_LIMIT
    requires forall p :: p in visited ==> p <= start + j
    requires j < |groups|
    ensures CountFrom(file, PageTotal(file), start + 1 + j, visited) == TotalRows(groups[j..])
    decreases |groups| - j
  {
    hide DataPagesAt, Recovers, Get24, PageAt, PageTotal, Tails, IsIndexPage, NextOf, PackedCounts, PagesBelow,
         TypeOf, SequenceOf, PageIndexOf;
    InFile(file, start, pageType, sequence, chainEnd, groups);
    DataPageReads(file, start, pageType, sequence, chainEnd, groups, j);
    GroupSize(file, start, pageType, sequence, chainEnd, groups, j);
    ShiftedCount(|groups[j]|);
    assert groups[j..][1..] == groups[j + 1..];
    if j + 1 < |groups| {
      CountsDataPages(file, start, pageType, sequence, chainEnd, groups, j + 1, visited + {start + 1 + j});
    }
  }

  lemma GroupSize(file: bytes, start: nat, pageType: nat, sequence: nat, chainEnd: nat, groups: seq<seq<Row>>, j: nat)
    requires DataPagesAt(file, start, pageType, sequence, chainEnd, groups) && j < |groups|
    ensures |groups[j]| <= 1791
  {
    hide Written;
    WrittenSpace(groups[j]);
  }

  // On every built file the validator's count is the table's row count. For an empty
  // table its walk goes on through the zeroed page and the header page.
  lemma CountsEveryTable(pages: seq<bytes>, tables: Tables, trackCount: nat, t: nat)
    requires |tables| == TABLE_COUNT && AllTablesFit(tables) && FileImage(pages, tables, trackCount)
    requires FitsCounters(tables) && t < TABLE_COUNT
    ensures PageTotal(Concat(pages)) >= 1
    ensures CountFrom(Concat(pages), PageTotal(Concat(pages)), FirstPageOf(Concat(pages), t), {}) == |tables[t]|
  {
    hide HeaderPage, IndexPage, PageAt, PageTotal, DataPagesAt, FirstSequence, DataGroups, Get32, NextOf,
         IsIndexPage, PageIndexOf, Get24, FileImage, TablePageTotal, FitsCounters, SequenceOf, Start, Phantom,
         EmptyCandidate, NextUnused, CountFrom, PagesBelow;
    TableAt(pages, tables, trackCount, t);
    CounterBounds(tables, t);
    GroupCount(tables[t]);
    HeaderPageReads(tables, trackCount, t);
    var file, start, groups := Concat(pages), Start(tables, t), DataGroups(tables[t]);
    PointerBounds(tables, t);
    IndexPageReads(start, t, start + 1, tables[t] != []);
    CountStep(file, start, {});
    if tables[t] == [] {
      CountEmptyTable(file, tables, trackCount, start);
    } else {
      PhantomAbove(tables, t);
      CountsDataPages(file, start, t, FirstSequence(tables, t), Phantom(tables, t), groups, 0, {} + {start});
      assert groups[0..] == groups;
      TotalRowsIsFlatLength(groups);
      DataGroupsKeep(tables[t]);
    }
  }

  lemma PhantomAbove(tables: Tables, t: nat)
    requires t < |tables|
    ensures PageCount(tables) <= Phantom(tables, t)
  {}

  // A page whose packed word is zero adds nothing.
  lemma CountStep(file: bytes, p: nat, visited: set<nat>)
    requires p < PageTotal(file) && p !in visited && Get24(PageAt(file, p), 24) == 0
    ensures CountFrom(file, PageTotal(file), p, visited)
         == CountFrom(file, PageTotal(file), NextOf(PageAt(file, p)), visited + {p})
  {
    hide PageAt, PageTotal, PagesBelow, Get24, NextOf;
  }

  lemma CountEmptyTable(file: bytes, tables: Tables, trackCount: nat, start: nat)
    requires |tables| == TABLE_COUNT && FitsCounters(tables) && 1 <= start
    requires start + 1 < PageTotal(file) <= NextUnused(tables)
    requires PageAt(file, 0) == HeaderPage(tables, trackCount) && PageAt(file, start + 1) == Zeros(PAGE_SIZE)
    ensures CountFrom(file, PageTotal(file), start + 1, {} + {start}) == 0
  {
    hide PageTotal, PageAt, PagesBelow, NextUnused, FirstSequence, HeaderPage;
    CountStep(file, start + 1, {} + {start});
    HeaderLeavesTheFile(tables, trackCount);
    CountStep(file, 0, {} + {start} + {start + 1});
  }

  lemma HeaderLeavesTheFile(tables: Tables, trackCount: nat)
    requires |tables| == TABLE_COUNT && FitsCounters(tables)
    ensures NextOf(HeaderPage(tables, trackCount)) == NextUnused(tables)
    ensures Get24(HeaderPage(tables, trackCount), 24) == 0
  {
    hide TablePointers, Start, LE32, Get32, NextUnused, FirstSequence;
    var page := HeaderPage(tables, trackCount);
    var fields := HeaderFields(TABLE_COUNT, NextUnused(tables), trackCount, FirstSequence(tables, TABLE_COUNT));
    assert page[0..28] == fields;
    SubSlice(page, 0, 28, 12, 16);
    ReadLE32(page, 12, NextUnused(tables));
    assert fields[24] == 0 && fields[25] == 0 && fields[26] == 0;
    assert page[24] == page[0..28][24] && page[25] == page[0..28][25] && page[26] == page[0..28][26];
  }

  // The validator also demands that next_unused_page be at most the page count. A built
  // file meets that exactly when it has no rows at all, which never happens: five tables
  // have fixed rows.
  lemma NextUnusedWithinFile(tables: Tables)
    ensures NextUnused(tables) <= PageCount(tables) <==> forall t :: 0 <= t < |tables| ==> tables[t] == []
  {
    if t :| 0 <= t < |tables| && tables[t] != [] {
      DataTablesGrow(tables, t, |tables|);
    } else {
      NoDataTables(tables, |tables|);
    }
  }

  lemma {:induction false} NoDataTables(tables: Tables, n: nat)
    requires n <= |tables| && forall t :: 0 <= t < n ==> tables[t] == []
    ensures DataTables(tables, n) == 0
  {
    if n > 0 { NoDataTables(tables, n - 1); }
  }
}
