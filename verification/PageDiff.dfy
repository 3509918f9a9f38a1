// The byte diff of crates/bvault-core/src/diff.rs: runs of differing bytes in two pages,
// merged over short gaps, and the comparison of two whole files page by page.
module PageDiff {
  import opened Bytes
  import opened Page
  import opened FileReader

  const GAP := 3

  // start and end are both inside the range.
  datatype Range = Range(start: nat, end: nat)

  // ---- What a page diff is ------------------------------------------------------------------

  predicate Differs(g: bytes, m: bytes, i: int) {
    0 <= i < |g| && i < |m| && g[i] != m[i]
  }

  // No three equal bytes in a row between two positions.
  predicate Connected(g: bytes, m: bytes, from: int, to: int) {
    forall k :: from <= k <= to - 2 ==> Differs(g, m, k) || Differs(g, m, k + 1) || Differs(g, m, k + 2)
  }

  predicate Good(g: bytes, m: bytes, r: Range) {
    r.start <= r.end && Differs(g, m, r.start) && Differs(g, m, r.end) && Connected(g, m, r.start, r.end)
  }

  predicate Within(r: Range, i: int) {
    r.start <= i <= r.end
  }

  predicate Covered(ranges: seq<Range>, i: int) {
    exists k :: 0 <= k < |ranges| && Within(ranges[k], i)
  }

  // Ascending, with at least three bytes from the end of one to the start of the next.
  predicate Apart(ranges: seq<Range>) {
    forall a, b :: 0 <= a < b < |ranges| ==> ranges[a].end + GAP < ranges[b].start
  }

  predicate GoodSoFar(g: bytes, m: bytes, ranges: seq<Range>, i: int) {
    && Apart(ranges)
    && (forall k :: 0 <= k < |ranges| ==> Good(g, m, ranges[k]) && ranges[k].end < i)
    && (forall p :: 0 <= p < i && Differs(g, m, p) ==> Covered(ranges, p))
  }

  // The ranges cover exactly the differing bytes and the gaps of one or two equal bytes
  // between them.
  predicate IsDiff(g: bytes, m: bytes, ranges: seq<Range>)
    requires |g| == |m|
  {
    GoodSoFar(g, m, ranges, |g|)
  }

  // The next bytes that the ranges so far have been found to end before.
  predicate Closed(g: bytes, m: bytes, ranges: seq<Range>) {
    ranges != [] ==>
      var end := ranges[|ranges| - 1].end;
      !Differs(g, m, end + 1) && !Differs(g, m, end + 2) && !Differs(g, m, end + 3)
  }

  // ---- The loops ------------------------------------------------------------------------------

  // The end of the run that starts at a differing byte, and where the scan goes on.
  method ExtendRun(g: bytes, m: bytes, start: nat) returns (end: nat, next: nat)
    requires |g| == |m| && Differs(g, m, start)
    ensures Good(g, m, Range(start, end)) && next == end + 1
    ensures !Differs(g, m, end + 1) && !Differs(g, m, end + 2) && !Differs(g, m, end + 3)
  {
    var i := start + 1;
    end := start;
    while i < |g|
      invariant start <= end < i <= |g| && i <= end + GAP
      invariant Good(g, m, Range(start, end))
      invariant forall k :: end < k < i ==> !Differs(g, m, k)
      invariant end + 1 < i ==> Differs(g, m, i)
      decreases |g| - i, |g| - end
    {
      if g[i] != m[i] {
        ConnectedOn(g, m, start, end, i);
        end := i;
        i := i + 1;
      } else {
        var j := i;
        var found := false;
        while j < |g| && j - i < GAP
          invariant i <= j <= |g| && j - i <= GAP && !found
          invariant forall k :: i <= k < j ==> !Differs(g, m, k)
        {
          if g[j] != m[j] {
            found := true;
            break;
          }
          j := j + 1;
        }
        if found {
          i := j;
        } else {
          return end, i;
        }
      }
    }
    next := i;
  }

  lemma ConnectedOn(g: bytes, m: bytes, start: int, end: int, i: int)
    requires Connected(g, m, start, end) && Differs(g, m, end) && Differs(g, m, i) && end < i <= end + GAP
    ensures Connected(g, m, start, i)
  {
    forall k | start <= k <= i - 2
      ensures Differs(g, m, k) || Differs(g, m, k + 1) || Differs(g, m, k + 2)
    {
      if k + 2 <= end {
        assert Differs(g, m, k) || Differs(g, m, k + 1) || Differs(g, m, k + 2);
      }
    }
  }

  method DiffPage(g: bytes, m: bytes) returns (ranges: seq<Range>)
    requires |g| == |m|
    ensures IsDiff(g, m, ranges)
  {
    hide Good, Connected;
    ranges := [];
    var i := 0;
    while i < |g|
      invariant i <= |g|
      invariant GoodSoFar(g, m, ranges, i) && Closed(g, m, ranges)
    {
      if g[i] != m[i] {
        var end, next := ExtendRun(g, m, i);
        AddRange(g, m, ranges, i, end);
        ranges := ranges + [Range(i, end)];
        i := next;
      } else {
        i := i + 1;
      }
    }
  }

  // A run that starts after the last range starts well after it.
  lemma StartsApart(g: bytes, m: bytes, ranges: seq<Range>, start: nat)
    requires Closed(g, m, ranges) && Differs(g, m, start) && ranges != [] && ranges[|ranges| - 1].end < start
    ensures ranges[|ranges| - 1].end + GAP < start
  {
    hide Differs;
  }

  lemma AddRange(g: bytes, m: bytes, ranges: seq<Range>, start: nat, end: nat)
    requires GoodSoFar(g, m, ranges, start) && Closed(g, m, ranges) && Good(g, m, Range(start, end))
    ensures GoodSoFar(g, m, ranges + [Range(start, end)], end + 1)
  {
    hide Connected, Differs, Closed, Covered;
    if ranges != [] {
      StartsApart(g, m, ranges, start);
    }
    forall p | 0 <= p < end + 1 && Differs(g, m, p)
      ensures Covered(ranges + [Range(start, end)], p)
    {
      CoveredBy(ranges, Range(start, end), p);
    }
  }

  lemma CoveredBy(ranges: seq<Range>, r: Range, p: int)
    ensures Covered(ranges, p) || Within(r, p) ==> Covered(ranges + [r], p)
  {
    var longer := ranges + [r];
    if k :| 0 <= k < |ranges| && Within(ranges[k], p) {
      assert Within(longer[k], p);
    }
    assert Within(longer[|ranges|], p) == Within(r, p);
  }

  // ---- One diff per pair of pages ---------------------------------------------------------

  lemma RangeOf(g: bytes, m: bytes, ranges: seq<Range>, p: int) returns (k: nat)
    requires |g| == |m| && IsDiff(g, m, ranges) && Differs(g, m, p)
    ensures k < |ranges| && Within(ranges[k], p)
  {
    hide Apart, Good;
    assert Covered(ranges, p);
    k :| 0 <= k < |ranges| && Within(ranges[k], p);
  }

  lemma GapIsEqual(g: bytes, m: bytes, ranges: seq<Range>, k: nat, e: int)
    requires |g| == |m| && IsDiff(g, m, ranges) && k < |ranges| && ranges[k].end < e <= ranges[k].end + GAP
    ensures !Differs(g, m, e)
  {
    hide Covered, Differs, Good, IsDiff;
    RangesApart(g, m, ranges);
    if Differs(g, m, e) {
      var j := RangeOf(g, m, ranges, e);
      OutsideGaps(ranges, k, j, e);
    }
  }

  lemma OutsideGaps(ranges: seq<Range>, k: nat, j: nat, e: int)
    requires Apart(ranges) && k < |ranges| && j < |ranges| && ranges[k].start <= ranges[k].end
    requires Within(ranges[j], e)
    ensures !(ranges[k].end < e <= ranges[k].end + GAP)
  {}

  lemma RangesApart(g: bytes, m: bytes, ranges: seq<Range>)
    requires |g| == |m| && IsDiff(g, m, ranges)
    ensures Apart(ranges) && forall k :: 0 <= k < |ranges| ==> ranges[k].start <= ranges[k].end && Good(g, m, ranges[k])
  {
    hide Covered, Connected, Differs;
  }

  // Two differing bytes are in one range exactly when no three equal bytes lie between.
  lemma SameRange(g: bytes, m: bytes, ranges: seq<Range>, k: nat, p: int, q: int)
    requires |g| == |m| && IsDiff(g, m, ranges) && k < |ranges| && Within(ranges[k], p)
    requires Differs(g, m, p) && Differs(g, m, q) && p <= q
    ensures Within(ranges[k], q) <==> Connected(g, m, p, q)
  {
    hide Covered, Differs, IsDiff;
    RangesApart(g, m, ranges);
    var end := ranges[k].end;
    if end < q {
      GapIsEqual(g, m, ranges, k, end + 1);
      GapIsEqual(g, m, ranges, k, end + 2);
      GapIsEqual(g, m, ranges, k, end + 3);
      assert q > end + 3 by {
        assert q != end + 1 && q != end + 2 && q != end + 3;
      }
      var e := end + 1;
      assert !(Differs(g, m, e) || Differs(g, m, e + 1) || Differs(g, m, e + 2));
    }
  }

  lemma {:induction false} SamePrefix(g: bytes, m: bytes, a: seq<Range>, b: seq<Range>, n: nat)
    requires |g| == |m| && IsDiff(g, m, a) && IsDiff(g, m, b) && n <= |a| && n <= |b|
    ensures a[..n] == b[..n]
  {
    hide IsDiff;
    if n > 0 {
      SamePrefix(g, m, a, b, n - 1);
      StartsNoLater(g, m, a, b, n - 1);
      StartsNoLater(g, m, b, a, n - 1);
      EndsNoLater(g, m, a, b, n - 1);
      EndsNoLater(g, m, b, a, n - 1);
      assert a[n - 1] == b[n - 1];
      assert a[..n] == a[..n - 1] + [a[n - 1]] && b[..n] == b[..n - 1] + [b[n - 1]];
    }
  }

  lemma StartsNoLater(g: bytes, m: bytes, a: seq<Range>, b: seq<Range>, n: nat)
    requires |g| == |m| && IsDiff(g, m, a) && IsDiff(g, m, b) && n < |a| && n <= |b| && a[..n] == b[..n]
    ensures n < |b| && b[n].start <= a[n].start
  {
    hide Connected, Covered, Differs, IsDiff;
    RangesApart(g, m, a);
    RangesApart(g, m, b);
    var k := RangeOf(g, m, b, a[n].start);
    NotEarlier(a, b, n, k);
    assert n < k ==> b[n].end + GAP < b[k].start;
  }

  lemma NotEarlier(a: seq<Range>, b: seq<Range>, n: nat, k: nat)
    requires Apart(a) && n < |a| && n <= |b| && a[..n] == b[..n] && k < |b| && Within(b[k], a[n].start)
    ensures k >= n
  {
    assert forall i :: 0 <= i < n ==> a[i] == b[i] by {
      assert forall i :: 0 <= i < n ==> a[i] == a[..n][i] && b[i] == b[..n][i];
    }
  }

  lemma EndsNoLater(g: bytes, m: bytes, a: seq<Range>, b: seq<Range>, n: nat)
    requires |g| == |m| && IsDiff(g, m, a) && IsDiff(g, m, b) && n < |a| && n < |b| && a[n].start == b[n].start
    ensures a[n].end <= b[n].end
  {
    hide Covered, Differs, IsDiff;
    RangesApart(g, m, a);
    RangesApart(g, m, b);
    SameRange(g, m, a, n, a[n].start, a[n].end);
    SameRange(g, m, b, n, b[n].start, a[n].end);
  }

  // The properties determine the ranges: any two diffs of the same pages are equal.
  lemma DiffIsUnique(g: bytes, m: bytes, a: seq<Range>, b: seq<Range>)
    requires |g| == |m| && IsDiff(g, m, a) && IsDiff(g, m, b)
    ensures a == b
  {
    hide IsDiff;
    if |a| < |b| {
      SamePrefix(g, m, b, a, |a|);
      StartsNoLater(g, m, b, a, |a|);
    } else if |b| < |a| {
      SamePrefix(g, m, a, b, |b|);
      StartsNoLater(g, m, a, b, |b|);
    } else {
      SamePrefix(g, m, a, b, |a|);
      assert a[..|a|] == a && b[..|b|] == b;
    }
  }

  // The ranges are empty exactly when the pages are the same.
  lemma EmptyMeansSame(g: bytes, m: bytes, ranges: seq<Range>)
    requires |g| == |m| && IsDiff(g, m, ranges)
    ensures ranges == [] <==> g == m
  {
    if ranges == [] {
      forall i | 0 <= i < |g|
        ensures g[i] == m[i]
      {
        assert !Covered(ranges, i);
        assert !Differs(g, m, i);
      }
    } else {
      assert Good(g, m, ranges[0]);
    }
  }

  // ---- Whole files -----------------------------------------------------------------------------

  datatype DiffedPage = DiffedPage(index: nat, ranges: seq<Range>)

  datatype FileDiff = FileDiff(diffs: seq<DiffedPage>, onlyInGolden: seq<nat>, onlyInMine: seq<nat>) {
    predicate IsIdentical() {
      diffs == [] && onlyInGolden == [] && onlyInMine == []
    }
  }

  // Which of the first n pages are listed, and with what.
  predicate ListedPages(golden: bytes, mine: bytes, n: nat, diffs: seq<DiffedPage>)
    requires n <= PageTotal(golden) && n <= PageTotal(mine)
  {
    && (forall i, j :: 0 <= i < j < |diffs| ==> diffs[i].index < diffs[j].index)
    && (forall i :: 0 <= i < |diffs| ==>
          && diffs[i].index < n && diffs[i].ranges != []
          && IsDiff(PageAt(golden, diffs[i].index), PageAt(mine, diffs[i].index), diffs[i].ranges))
    && (forall p :: 0 <= p < n && PageAt(golden, p) != PageAt(mine, p) ==>
          exists i :: 0 <= i < |diffs| && diffs[i].index == p)
  }

  method DiffPdb(golden: bytes, mine: bytes) returns (d: FileDiff)
    ensures ListedPages(golden, mine, Least(PageTotal(golden), PageTotal(mine)), d.diffs)
    ensures d.onlyInGolden == seq(PageTotal(golden) - Least(PageTotal(golden), PageTotal(mine)),
      i requires i >= 0 => PageTotal(mine) + i)
    ensures d.onlyInMine == seq(PageTotal(mine) - Least(PageTotal(golden), PageTotal(mine)),
      i requires i >= 0 => PageTotal(golden) + i)
  {
    hide IsDiff;
    var gp, mp := PageTotal(golden), PageTotal(mine);
    var compared := Least(gp, mp);
    var diffs := [];
    for index := 0 to compared
      invariant ListedPages(golden, mine, index, diffs)
    {
      var g, m := PageAt(golden, index), PageAt(mine, index);
      if g != m {
        var ranges := DiffPage(g, m);
        EmptyMeansSame(g, m, ranges);
        ListPage(golden, mine, index, diffs, DiffedPage(index, ranges));
        if ranges != [] {
          diffs := diffs + [DiffedPage(index, ranges)];
        }
      }
    }
    d := FileDiff(diffs, seq(gp - compared, i requires i >= 0 => compared + i),
      seq(mp - compared, i requires i >= 0 => compared + i));
  }

  lemma ListPage(golden: bytes, mine: bytes, n: nat, diffs: seq<DiffedPage>, page: DiffedPage)
    requires n < PageTotal(golden) && n < PageTotal(mine) && ListedPages(golden, mine, n, diffs)
    requires page.index == n && IsDiff(PageAt(golden, n), PageAt(mine, n), page.ranges) && page.ranges != []
    ensures ListedPages(golden, mine, n + 1, diffs + [page])
  {
    hide IsDiff, PageAt;
    var longer := diffs + [page];
    forall p | 0 <= p < n + 1 && PageAt(golden, p) != PageAt(mine, p)
      ensures exists i :: 0 <= i < |longer| && longer[i].index == p
    {
      if p < n {
        var i :| 0 <= i < |diffs| && diffs[i].index == p;
        assert longer[i].index == p;
      } else {
        assert longer[|diffs|].index == p;
      }
    }
  }

  // Two files are reported identical exactly when their whole pages are the same; bytes
  // after the last whole page are not looked at.
  lemma IdenticalMeansSamePages(golden: bytes, mine: bytes, d: FileDiff)
    requires ListedPages(golden, mine, Least(PageTotal(golden), PageTotal(mine)), d.diffs)
    requires |d.onlyInGolden| == PageTotal(golden) - Least(PageTotal(golden), PageTotal(mine))
    requires |d.onlyInMine| == PageTotal(mine) - Least(PageTotal(golden), PageTotal(mine))
    ensures d.IsIdentical() <==> golden[..PageTotal(golden) * PAGE_SIZE] == mine[..PageTotal(mine) * PAGE_SIZE]
  {
    hide IsDiff;
    var n := Least(PageTotal(golden), PageTotal(mine));
    if d.IsIdentical() {
      forall i | 0 <= i < n * PAGE_SIZE
        ensures golden[i] == mine[i]
      {
        var p := i / PAGE_SIZE;
        assert PageAt(golden, p) == PageAt(mine, p);
        assert PageAt(golden, p)[i - p * PAGE_SIZE] == golden[i] && PageAt(mine, p)[i - p * PAGE_SIZE] == mine[i];
      }
    }
    if golden[..PageTotal(golden) * PAGE_SIZE] == mine[..PageTotal(mine) * PAGE_SIZE] {
      if d.diffs != [] {
        var page := d.diffs[0];
        var p := page.index;
        EmptyMeansSame(PageAt(golden, p), PageAt(mine, p), page.ranges);
        SamePage(golden, mine, n, p);
      }
    }
  }

  lemma SamePage(golden: bytes, mine: bytes, n: nat, p: nat)
    requires n <= PageTotal(golden) && n <= PageTotal(mine) && p < n
    requires golden[..n * PAGE_SIZE] == mine[..n * PAGE_SIZE]
    ensures PageAt(golden, p) == PageAt(mine, p)
  {
    SubSlice(golden, 0, n * PAGE_SIZE, p * PAGE_SIZE, (p + 1) * PAGE_SIZE);
    SubSlice(mine, 0, n * PAGE_SIZE, p * PAGE_SIZE, (p + 1) * PAGE_SIZE);
  }
}
