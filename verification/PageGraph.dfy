// The graph of pages in a built file: who owns which page, what each page says its
// number is, how data pages are numbered in sequence, and where chains end.
module PageGraph {
  import opened Bytes
  import opened Page
  import opened PageReader
  import opened Layout
  import opened FileReader

  // Every page after the header states its own number, except the zeroed page of an
  // empty table, which is the one right after that table's index page.
  lemma PagesStateTheirNumber(pages: seq<bytes>, tables: Tables, trackCount: nat, p: nat)
    requires |tables| == TABLE_COUNT && AllTablesFit(tables) && FileImage(pages, tables, trackCount)
    requires FitsCounters(tables) && 1 <= p < PageCount(tables)
    ensures PageTotal(Concat(pages)) == PageCount(tables)
    ensures
      || PageIndexOf(PageAt(Concat(pages), p)) == p
      || (PageAt(Concat(pages), p) == Zeros(PAGE_SIZE)
          && exists t :: 0 <= t < TABLE_COUNT && tables[t] == [] && p == Start(tables, t) + 1)
  {
    hide HeaderPage, IndexPage, PageAt, PageTotal, DataPagesAt, FirstSequence, Phantom, DataGroups, Get32,
         NextOf, IsIndexPage, PageIndexOf, Get24, FileImage, TablePageTotal, FitsCounters;
    EveryPageHasATable(tables, TABLE_COUNT, p);
    var t :| 0 <= t < TABLE_COUNT && Start(tables, t) <= p < Start(tables, t + 1);
    TableAt(pages, tables, trackCount, t);
    CounterBounds(tables, t);
    GroupCount(tables[t]);
    var start := Start(tables, t);
    if p == start {
      IndexPageReads(start, t, start + 1, tables[t] != []);
    } else if tables[t] != [] {
      DataPageReads(Concat(pages), start, t, FirstSequence(tables, t), Phantom(tables, t), DataGroups(tables[t]),
        p - start - 1);
    }
  }

  // Page numbers of the data pages of the first n tables, in file order.
  function DataPageNumbers(tables: Tables, n: nat): (r: seq<nat>)
    requires n <= |tables|
    ensures |r| == FirstSequence(tables, n) - 2
  {
    if n == 0 then []
    else DataPageNumbers(tables, n - 1) + Consecutive(Start(tables, n - 1) + 1, |DataGroups(tables[n - 1])|)
  }

  // Data pages carry sequence numbers 2, 3, 4, ... in file order, over all tables.
  lemma {:induction false} SequenceWithoutGaps(pages: seq<bytes>, tables: Tables, trackCount: nat, n: nat, k: nat)
    requires |tables| == TABLE_COUNT && AllTablesFit(tables) && FileImage(pages, tables, trackCount)
    requires FitsCounters(tables) && n <= TABLE_COUNT && k < |DataPageNumbers(tables, n)|
    ensures DataPageNumbers(tables, n)[k] < PageTotal(Concat(pages))
    ensures SequenceOf(PageAt(Concat(pages), DataPageNumbers(tables, n)[k])) == 2 + k
  {
    hide HeaderPage, IndexPage, PageAt, PageTotal, DataPagesAt, Phantom, DataGroups, Get32, NextOf,
         IsIndexPage, PageIndexOf, Get24, FileImage, TablePageTotal, FitsCounters, SequenceOf;
    if k < |DataPageNumbers(tables, n - 1)| {
      SequenceWithoutGaps(pages, tables, trackCount, n - 1, k);
    } else {
      var t := n - 1;
      TableAt(pages, tables, trackCount, t);
      CounterBounds(tables, t);
      GroupCount(tables[t]);
      DataPageReads(Concat(pages), Start(tables, t), t, FirstSequence(tables, t), Phantom(tables, t),
        DataGroups(tables[t]),
                    k - |DataPageNumbers(tables, t)|);
    }
  }

  // A data table's last page, as the table pointer gives it, continues to the page the
  // same pointer calls the empty candidate: beyond the file, below next_unused_page, and
  // different for every table.
  lemma ChainsEndBeyondTheFile(pages: seq<bytes>, tables: Tables, trackCount: nat, t: nat)
    requires |tables| == TABLE_COUNT && AllTablesFit(tables) && FileImage(pages, tables, trackCount)
    requires FitsCounters(tables) && t < TABLE_COUNT && tables[t] != []
    ensures PageTotal(Concat(pages)) >= 1 && LastPageOf(Concat(pages), t) < PageTotal(Concat(pages))
    ensures NextOf(PageAt(Concat(pages), LastPageOf(Concat(pages), t))) == EmptyCandidateOf(Concat(pages), t)
    ensures PageTotal(Concat(pages)) <= EmptyCandidateOf(Concat(pages), t) < NextUnused(tables)
    ensures forall u :: 0 <= u < TABLE_COUNT && u != t ==>
      EmptyCandidateOf(Concat(pages), u) != EmptyCandidateOf(Concat(pages), t)
  {
    hide HeaderPage, IndexPage, PageAt, PageTotal, DataPagesAt, FirstSequence, DataGroups, Get32, NextOf,
         IsIndexPage, PageIndexOf, Get24, FileImage, TablePageTotal, FitsCounters, SequenceOf, Start, Phantom,
         EmptyCandidate, NextUnused;
    TableAt(pages, tables, trackCount, t);
    CounterBounds(tables, t);
    GroupCount(tables[t]);
    HeaderPageReads(tables, trackCount, t);
    var groups := DataGroups(tables[t]);
    DataPageReads(Concat(pages), Start(tables, t), t, FirstSequence(tables, t), Phantom(tables, t), groups,
      |groups| - 1);
    PhantomBounds(tables, t);
    forall u | 0 <= u < TABLE_COUNT && u != t
      ensures EmptyCandidateOf(Concat(pages), u) != EmptyCandidateOf(Concat(pages), t)
    {
      HeaderPageReads(tables, trackCount, u);
      if t < u { ChainEndsDistinct(tables, t, u); } else { ChainEndsDistinct(tables, u, t); }
    }
  }

  lemma PhantomBounds(tables: Tables, t: nat)
    requires t < |tables| && tables[t] != []
    ensures EmptyCandidate(tables, t) == Phantom(tables, t)
    ensures PageCount(tables) <= Phantom(tables, t) < NextUnused(tables)
  {
    hide Start;
    DataTablesGrow(tables, t, |tables|);
  }
}
