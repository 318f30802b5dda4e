/** Totals of a source-counts capture: saturating sums that do not depend on the order of the rows. */
module GraphTotals {
  import opened Numbers
  import opened Options
  import opened EvalGraph

  datatype Column = BodyStarts | ForceRequests | CreatedThunks | CacheCompute | CacheHit | CacheWait

  function Of(c: Counts, column: Column): U64 {
    match column
    case BodyStarts => c.bodyStarts
    case ForceRequests => c.forceRequests
    case CreatedThunks => c.created
    case CacheCompute => c.cacheCompute
    case CacheHit => c.cacheHit
    case CacheWait => c.cacheWait
  }

  datatype Row = Row(key: SiteKey, counts: Counts)

  /** `None` selects the rows of all sites. */
  predicate Selected(row: Row, site: Option<SiteKey>) {
    site.None? || site.value == row.key
  }

  /** The sum without any bound. */
  ghost function TrueSum(rows: seq<Row>, site: Option<SiteKey>, column: Column): nat {
    if rows == [] then 0
    else
      var last := rows[|rows| - 1];
      TrueSum(rows[..|rows| - 1], site, column) + if Selected(last, site) then Of(last.counts, column) else 0
  }

  ghost predicate AnySelected(rows: seq<Row>, site: Option<SiteKey>) {
    exists k :: 0 <= k < |rows| && Selected(rows[k], site)
  }

  ghost predicate AnyFlagged(rows: seq<Row>, site: Option<SiteKey>) {
    exists k :: 0 <= k < |rows| && Selected(rows[k], site) && rows[k].counts.overflow
  }

  ghost predicate AnyTooLarge(rows: seq<Row>, site: Option<SiteKey>) {
    exists column :: TrueSum(rows, site, column) > U64_MAX
  }

  /** Every column is the true sum or the maximum, and the flag says whether that may be too low. */
  ghost predicate IsTotal(c: Counts, rows: seq<Row>, site: Option<SiteKey>) {
    && (forall column :: Of(c, column) == Min(U64_MAX, TrueSum(rows, site, column)))
    && (c.overflow <==> AnyFlagged(rows, site) || AnyTooLarge(rows, site))
  }

  // ------------------------------------------------------------------- one row after the other

  lemma TrueSumOneMore(rows: seq<Row>, row: Row, site: Option<SiteKey>, column: Column)
    ensures TrueSum(rows + [row], site, column)
         == TrueSum(rows, site, column) + if Selected(row, site) then Of(row.counts, column) else 0
  {
    assert (rows + [row])[..|rows|] == rows;
  }

  lemma AnyOneMore(rows: seq<Row>, row: Row, site: Option<SiteKey>)
    ensures AnySelected(rows + [row], site) <==> AnySelected(rows, site) || Selected(row, site)
    ensures AnyFlagged(rows + [row], site) <==> AnyFlagged(rows, site) || (Selected(row, site) && row.counts.overflow)
  {
    var all := rows + [row];
    assert all[|rows|] == row;
    assert forall k {:trigger rows[k]} :: 0 <= k < |rows| ==> all[k] == rows[k];
    if AnySelected(rows, site) {
      var k :| 0 <= k < |rows| && Selected(rows[k], site);
      assert Selected(all[k], site);
    }
    if AnyFlagged(rows, site) {
      var k :| 0 <= k < |rows| && Selected(rows[k], site) && rows[k].counts.overflow;
      assert Selected(all[k], site) && all[k].counts.overflow;
    }
  }

  lemma OtherRowKeepsTotal(c: Counts, rows: seq<Row>, row: Row, site: Option<SiteKey>)
    requires IsTotal(c, rows, site) && !Selected(row, site)
    ensures IsTotal(c, rows + [row], site)
  {
    forall column ensures TrueSum(rows + [row], site, column) == TrueSum(rows, site, column) {
      TrueSumOneMore(rows, row, site, column);
    }
    AnyOneMore(rows, row, site);
  }

  lemma AddedColumn(to: Counts, from: Counts, column: Column)
    ensures Of(AddCounts(to, from), column) == Min(U64_MAX, Of(to, column) + Of(from, column))
  {
  }

  lemma AddedFlag(to: Counts, from: Counts)
    ensures AddCounts(to, from).overflow
       <==> to.overflow || from.overflow || exists column :: Of(to, column) + Of(from, column) > U64_MAX
  {
    if AddCounts(to, from).overflow && !to.overflow && !from.overflow {
      assert Of(to, BodyStarts) + Of(from, BodyStarts) > U64_MAX
          || Of(to, ForceRequests) + Of(from, ForceRequests) > U64_MAX
          || Of(to, CreatedThunks) + Of(from, CreatedThunks) > U64_MAX
          || Of(to, CacheCompute) + Of(from, CacheCompute) > U64_MAX
          || Of(to, CacheHit) + Of(from, CacheHit) > U64_MAX
          || Of(to, CacheWait) + Of(from, CacheWait) > U64_MAX;
    }
  }

  /** Saturating one row at a time is saturating the true sum once, flag included. */
  lemma AddedRowIsTotal(c: Counts, rows: seq<Row>, row: Row, site: Option<SiteKey>)
    requires IsTotal(c, rows, site) && Selected(row, site)
    ensures IsTotal(AddCounts(c, row.counts), rows + [row], site)
  {
    var c', rows' := AddCounts(c, row.counts), rows + [row];
    hide AddCounts, TrueSum, Of;
    forall column
      ensures Of(c', column) == Min(U64_MAX, TrueSum(rows', site, column))
      ensures TrueSum(rows', site, column) == TrueSum(rows, site, column) + Of(row.counts, column)
    {
      TrueSumOneMore(rows, row, site, column);
      AddedColumn(c, row.counts, column);
    }
    AnyOneMore(rows, row, site);
    AddedFlag(c, row.counts);
    hide AnyFlagged;
    assert AnyTooLarge(rows, site) ==> AnyTooLarge(rows', site) by {
      if AnyTooLarge(rows, site) {
        var column :| TrueSum(rows, site, column) > U64_MAX;
        assert TrueSum(rows', site, column) > U64_MAX;
      }
    }
    if column :| Of(c, column) + Of(row.counts, column) > U64_MAX {
      assert AnyTooLarge(rows, site) || AnyTooLarge(rows', site) by {
        assert TrueSum(rows, site, column) > U64_MAX || TrueSum(rows', site, column) > U64_MAX;
      }
    }
    if AnyTooLarge(rows', site) && !AnyTooLarge(rows, site) {
      var column :| TrueSum(rows', site, column) > U64_MAX;
      assert TrueSum(rows, site, column) <= U64_MAX;
      assert Of(c, column) + Of(row.counts, column) > U64_MAX;
    }
  }

  lemma NothingIsTotal(site: Option<SiteKey>)
    ensures IsTotal(NO_COUNTS, [], site) && !AnySelected([], site)
  {
  }

  // ------------------------------------------------------------------------- the order of rows

  lemma {:induction false} TrueSumWithout(rows: seq<Row>, i: nat, site: Option<SiteKey>, column: Column)
    requires i < |rows|
    ensures TrueSum(rows, site, column)
         == TrueSum(rows[..i] + rows[i + 1..], site, column) + if Selected(rows[i], site) then Of(rows[i].counts, column) else 0
    decreases |rows|
  {
    hide Of, Selected;
    var n := |rows| - 1;
    var rest := rows[..i] + rows[i + 1..];
    if i == n {
      assert rest == rows[..n];
    } else {
      var front := rows[..n];
      WithoutOfFront(rows, i);
      TrueSumWithout(front, i, site, column);
    }
  }

  lemma WithoutOfFront<T>(rows: seq<T>, i: nat)
    requires i < |rows| - 1
    ensures var n, rest := |rows| - 1, rows[..i] + rows[i + 1..];
            |rest| == n && rest[..n - 1] == rows[..n][..i] + rows[..n][i + 1..] && rest[n - 1] == rows[n]
  {
  }

  lemma TakeOut(a: seq<Row>, b: seq<Row>) returns (i: nat)
    requires multiset(a) == multiset(b) && a != []
    ensures i < |b| && b[i] == a[|a| - 1]
    ensures multiset(b[..i] + b[i + 1..]) == multiset(a[..|a| - 1])
  {
    var front, last := a[..|a| - 1], a[|a| - 1];
    assert a == front + [last];
    assert multiset(a) == multiset(front) + multiset{last};
    assert last in multiset(b);
    i :| 0 <= i < |b| && b[i] == last;
    Removed(b, i);
    assert multiset(b[..i] + b[i + 1..]) == multiset(b) - multiset{last};
  }

  lemma Removed(b: seq<Row>, i: nat)
    requires i < |b|
    ensures multiset(b) == multiset(b[..i] + b[i + 1..]) + multiset{b[i]}
  {
    assert b == b[..i] + [b[i]] + b[i + 1..];
  }

  lemma {:induction false} TrueSumPermuted(a: seq<Row>, b: seq<Row>, site: Option<SiteKey>, column: Column)
    requires multiset(a) == multiset(b)
    ensures TrueSum(a, site, column) == TrueSum(b, site, column)
    decreases |a|
  {
    if a == [] {
      assert |b| == |multiset(b)| == 0;
    } else {
      hide Selected, Of;
      var i := TakeOut(a, b);
      TrueSumPermuted(a[..|a| - 1], b[..i] + b[i + 1..], site, column);
      TrueSumWithout(b, i, site, column);
    }
  }

  lemma FlagPermuted(a: seq<Row>, b: seq<Row>, site: Option<SiteKey>)
    requires multiset(a) == multiset(b)
    ensures AnyFlagged(a, site) ==> AnyFlagged(b, site)
    ensures AnySelected(a, site) ==> AnySelected(b, site)
  {
    forall k | 0 <= k < |a| ensures exists i :: 0 <= i < |b| && b[i] == a[k] {
      assert a[k] in multiset(b);
    }
    if AnyFlagged(a, site) {
      var k :| 0 <= k < |a| && Selected(a[k], site) && a[k].counts.overflow;
      var i :| 0 <= i < |b| && b[i] == a[k];
      assert Selected(b[i], site) && b[i].counts.overflow;
    }
    if AnySelected(a, site) {
      var k :| 0 <= k < |a| && Selected(a[k], site);
      var i :| 0 <= i < |b| && b[i] == a[k];
      assert Selected(b[i], site);
    }
  }

  lemma SameColumns(c: Counts, d: Counts)
    requires (forall column :: Of(c, column) == Of(d, column)) && c.overflow == d.overflow
    ensures c == d
  {
    assert Of(c, BodyStarts) == Of(d, BodyStarts) && Of(c, ForceRequests) == Of(d, ForceRequests);
    assert Of(c, CreatedThunks) == Of(d, CreatedThunks) && Of(c, CacheCompute) == Of(d, CacheCompute);
    assert Of(c, CacheHit) == Of(d, CacheHit) && Of(c, CacheWait) == Of(d, CacheWait);
  }

  /** The same rows in any order have one total. */
  lemma TotalIgnoresOrder(c: Counts, d: Counts, a: seq<Row>, b: seq<Row>, site: Option<SiteKey>)
    requires IsTotal(c, a, site) && IsTotal(d, b, site) && multiset(a) == multiset(b)
    ensures c == d
  {
    hide Of, TrueSum;
    forall column ensures TrueSum(a, site, column) == TrueSum(b, site, column) {
      TrueSumPermuted(a, b, site, column);
    }
    FlagPermuted(a, b, site);
    FlagPermuted(b, a, site);
    SameColumns(c, d);
  }

  lemma {:induction false} SiteSumWithinTotal(rows: seq<Row>, site: Option<SiteKey>, column: Column)
    ensures TrueSum(rows, site, column) <= TrueSum(rows, None, column)
  {
    if rows != [] { SiteSumWithinTotal(rows[..|rows| - 1], site, column); }
  }

  /** While the grand total is exact, so is every site's. */
  lemma ExactTotalExactSites(total: Counts, c: Counts, rows: seq<Row>, site: Option<SiteKey>)
    requires IsTotal(total, rows, None) && !total.overflow && IsTotal(c, rows, site)
    ensures !c.overflow && forall column :: Of(c, column) == TrueSum(rows, site, column)
  {
    hide Of, TrueSum;
    forall column ensures TrueSum(rows, site, column) <= U64_MAX {
      SiteSumWithinTotal(rows, site, column);
      assert TrueSum(rows, None, column) <= U64_MAX;
    }
    FlaggedAtSiteIsFlagged(rows, site);
  }

  lemma FlaggedAtSiteIsFlagged(rows: seq<Row>, site: Option<SiteKey>)
    ensures AnyFlagged(rows, site) ==> AnyFlagged(rows, None)
  {
    if AnyFlagged(rows, site) {
      var k :| 0 <= k < |rows| && Selected(rows[k], site) && rows[k].counts.overflow;
      assert Selected(rows[k], None) && rows[k].counts.overflow;
    }
  }

  // ------------------------------------------------------------------------------- the import

  predicate IsRow(line: Line) {
    Readable(line) && line.event.CountsEvent?
  }

  /** The rows that were added into the totals, in the order of the file. */
  ghost function AcceptedRows(lines: seq<Line>): seq<Row> {
    if lines == [] then []
    else
      var front, line := lines[..|lines| - 1], lines[|lines| - 1];
      if IsRow(line) && RowAccepted(ReadLines(CountsOnly, front).graph, line.event.execution, line.event.key)
      then AcceptedRows(front) + [Row(line.event.key, line.event.counts)]
      else AcceptedRows(front)
  }

  ghost predicate TotalsOk(g: Graph, rows: seq<Row>) {
    && g.mode == CountsOnly
    && IsTotal(g.total, rows, None)
    && (forall key :: key in g.counts <==> AnySelected(rows, Some(key)))
    && (forall key :: key in g.counts ==> IsTotal(g.counts[key], rows, Some(key)))
  }

  /** Nothing that the totals depend on has changed. */
  ghost predicate SameTotals(g: Graph, g': Graph) {
    g'.mode == g.mode && g'.total == g.total && g'.counts == g.counts
  }

  lemma OtherRecordKeepsTotals(g: Graph, e: Event, no: U64, ts: U64)
    requires g.mode == CountsOnly && (e.CountsEvent? ==> !RowAccepted(g, e.execution, e.key))
    ensures SameTotals(g, Record(g, e, no, ts))
  {
    hide RowAccepted, Record, Execute, CountRow, SameTotals;
    RunRecord(g, e, no, ts);
    if e.CountsEvent? {
      NotCounted(g, e.execution, e.key, e.counts);
    } else if e.ExecutionEvent? {
      ExecutionKeepsTotals(g, e, no, ts);
    } else {
      PlainRecord(g, e, no, ts);
      NamesKeepTotals(g, Record(g, e, no, ts));
    }
  }

  lemma NamesKeepTotals(g: Graph, g': Graph)
    requires g'.mode == g.mode && g'.total == g.total && g'.counts == g.counts
    ensures SameTotals(g, g')
  {
  }

  lemma NotCounted(g: Graph, execution: U64, key: SiteKey, counts: Counts)
    requires !RowAccepted(g, execution, key)
    ensures SameTotals(g, CountRow(g, execution, key, counts))
  {
    hide RowAccepted;
  }

  lemma ExecutionKeepsTotals(g: Graph, e: Event, no: U64, ts: U64)
    requires e.ExecutionEvent?
    ensures SameTotals(g, Execute(g, e.execution, e.mod, e.workers, e.status, no, ts))
  {
    hide ExecutionAccepted, Marked, EntryOf;
  }

  lemma AbsentIsTotal(rows: seq<Row>, site: Option<SiteKey>)
    requires !AnySelected(rows, site)
    ensures IsTotal(NO_COUNTS, rows, site)
  {
    forall column ensures TrueSum(rows, site, column) == 0 { NothingSelected(rows, site, column); }
  }

  lemma {:induction false} NothingSelected(rows: seq<Row>, site: Option<SiteKey>, column: Column)
    requires forall k :: 0 <= k < |rows| ==> !Selected(rows[k], site)
    ensures TrueSum(rows, site, column) == 0
  {
    if rows != [] { NothingSelected(rows[..|rows| - 1], site, column); }
  }

  lemma AcceptedRowKeepsTotals(g: Graph, rows: seq<Row>, execution: U64, key: SiteKey, counts: Counts)
    requires TotalsOk(g, rows) && RowAccepted(g, execution, key)
    ensures TotalsOk(CountRow(g, execution, key, counts), rows + [Row(key, counts)])
  {
    hide IsTotal, AnySelected, AddCounts;
    var row := Row(key, counts);
    AddedRowIsTotal(g.total, rows, row, None);
    if key !in g.counts { AbsentIsTotal(rows, Some(key)); }
    AddedRowIsTotal(if key in g.counts then g.counts[key] else NO_COUNTS, rows, row, Some(key));
    forall k ensures AnySelected(rows + [row], Some(k)) <==> AnySelected(rows, Some(k)) || k == key {
      AnyOneMore(rows, row, Some(k));
    }
    forall k | k in g.counts && k != key ensures IsTotal(g.counts[k], rows + [row], Some(k)) {
      OtherRowKeepsTotal(g.counts[k], rows, row, Some(k));
    }
  }

  lemma ReadLineKeepsTotals(lines: seq<Line>, line: Line)
    requires TotalsOk(ReadLines(CountsOnly, lines).graph, AcceptedRows(lines))
    ensures TotalsOk(ReadLines(CountsOnly, lines + [line]).graph, AcceptedRows(lines + [line]))
  {
    hide TotalsOk, Record, RowAccepted, ReadLine;
    assert (lines + [line])[..|lines|] == lines;
    var r := ReadLines(CountsOnly, lines);
    assert ReadLines(CountsOnly, lines + [line]) == ReadLine(r, line);
    var counted := ReadLineShape(r, line);
    if Readable(line) {
      RecordKeepsTotals(r.graph, counted, AcceptedRows(lines), line.event, line.no.value, line.ts.value);
    } else {
      SameTotalsOk(r.graph, counted, AcceptedRows(lines));
    }
  }

  lemma SameTotalsOk(g: Graph, g': Graph, rows: seq<Row>)
    requires TotalsOk(g, rows) && SameTotals(g, g')
    ensures TotalsOk(g', rows)
  {
  }

  lemma CountsRecord(g: Graph, e: Event, no: U64, ts: U64)
    requires e.CountsEvent?
    ensures Record(g, e, no, ts) == CountRow(g, e.execution, e.key, e.counts)
  {
    hide CountRow, Allocate, Invoke, Relate, CacheOutcome, Execute;
  }

  lemma RecordKeepsTotals(g: Graph, c: Graph, rows: seq<Row>, e: Event, no: U64, ts: U64)
    requires TotalsOk(g, rows) && c == g.(diagnostics := c.diagnostics)
    ensures (if e.CountsEvent? && RowAccepted(g, e.execution, e.key)
             then TotalsOk(Record(c, e, no, ts), rows + [Row(e.key, e.counts)])
             else TotalsOk(Record(c, e, no, ts), rows))
  {
    hide IsTotal, AnySelected, CountRow, Record;
    assert e.CountsEvent? ==> RowAccepted(c, e.execution, e.key) == RowAccepted(g, e.execution, e.key);
    if e.CountsEvent? && RowAccepted(g, e.execution, e.key) {
      CountsRecord(c, e, no, ts);
      AcceptedRowKeepsTotals(c, rows, e.execution, e.key, e.counts);
    } else {
      OtherRecordKeepsTotals(c, e, no, ts);
    }
  }

  /** After any stream, every per-site total and the grand total is the saturated sum of its accepted rows. */
  lemma {:induction false} TotalsAreSaturatedSums(lines: seq<Line>)
    ensures TotalsOk(ReadLines(CountsOnly, lines).graph, AcceptedRows(lines))
  {
    hide IsTotal, AnySelected;
    if lines == [] {
      NothingIsTotal(None);
      forall key ensures !AnySelected([], Some(key)) { NothingIsTotal(Some(key)); }
    } else {
      var front := lines[..|lines| - 1];
      TotalsAreSaturatedSums(front);
      assert lines == front + [lines[|lines| - 1]];
      ReadLineKeepsTotals(front, lines[|lines| - 1]);
    }
  }

  /** Two captures that accepted the same rows, in any order and between any other records, report the same totals. */
  lemma ImportTotalsIgnoreOrder(a: seq<Line>, b: seq<Line>)
    requires multiset(AcceptedRows(a)) == multiset(AcceptedRows(b))
    ensures var g, h := ImportOf(CountsOnly, a).graph, ImportOf(CountsOnly, b).graph;
            g.total == h.total && g.counts == h.counts && g.invocations == h.invocations && g.forceRequests == h.forceRequests
  {
    hide IsTotal, AnySelected, AcceptedRows, ReadLines;
    TotalsAreSaturatedSums(a);
    TotalsAreSaturatedSums(b);
    var g, h := ReadLines(CountsOnly, a).graph, ReadLines(CountsOnly, b).graph;
    TotalIgnoresOrder(g.total, h.total, AcceptedRows(a), AcceptedRows(b), None);
    forall key
      ensures key in g.counts <==> key in h.counts
      ensures key in g.counts && key in h.counts ==> g.counts[key] == h.counts[key]
    {
      FlagPermuted(AcceptedRows(a), AcceptedRows(b), Some(key));
      FlagPermuted(AcceptedRows(b), AcceptedRows(a), Some(key));
      if key in g.counts && key in h.counts {
        TotalIgnoresOrder(g.counts[key], h.counts[key], AcceptedRows(a), AcceptedRows(b), Some(key));
      }
    }
    assert g.counts == h.counts;
  }

  /** The summary of a counts import gives the capped sums of the accepted rows, column by column. */
  lemma SummaryIsTotal(lines: seq<Line>)
    ensures var g, rows := ImportOf(CountsOnly, lines).graph, AcceptedRows(lines);
            && g.invocations == Min(U64_MAX, TrueSum(rows, None, BodyStarts))
            && g.forceRequests == Min(U64_MAX, TrueSum(rows, None, ForceRequests))
            && g.cacheComputes == Min(U64_MAX, TrueSum(rows, None, CacheCompute))
            && g.cacheHits == Min(U64_MAX, TrueSum(rows, None, CacheHit))
            && g.cacheWaits == Min(U64_MAX, TrueSum(rows, None, CacheWait))
  {
    hide AcceptedRows, ReadLines, TrueSum, AnySelected, AnyFlagged, AnyTooLarge, AllFaults, MissingEndpoints;
    TotalsAreSaturatedSums(lines);
    var g := ReadLines(CountsOnly, lines).graph;
    assert Of(g.total, BodyStarts) == g.total.bodyStarts && Of(g.total, ForceRequests) == g.total.forceRequests;
    assert Of(g.total, CacheCompute) == g.total.cacheCompute && Of(g.total, CacheHit) == g.total.cacheHit;
    assert Of(g.total, CacheWait) == g.total.cacheWait;
  }
}
