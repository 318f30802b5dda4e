/** What "complete" promises about a source-counts capture: every execution is there from start to end. */
module GraphRuns {
  import opened Numbers
  import opened Options
  import opened EvalGraph
  import opened GraphLimits
  import opened GraphTotals

  // ------------------------------------------------------------- the stream, without the importer

  /** The record is about this execution. */
  predicate Concerns(line: Line, x: U64) {
    && Readable(line)
    && ((line.event.CountsEvent? && line.event.execution == x) || (line.event.ExecutionEvent? && line.event.execution == x))
  }

  /** All records about one execution, in the order of the file. */
  function Story(lines: seq<Line>, x: U64): seq<Event> {
    if lines == [] then []
    else
      var front, line := lines[..|lines| - 1], lines[|lines| - 1];
      if Concerns(line, x) then Story(front, x) + [line.event] else Story(front, x)
  }

  predicate IsSiteRecord(line: Line) {
    Readable(line) && line.event.SiteEvent?
  }

  predicate IsModuleRecord(line: Line) {
    Readable(line) && line.event.ModuleEvent?
  }

  function SiteRecords(lines: seq<Line>): set<SiteKey> {
    if lines == [] then {}
    else
      var front, line := lines[..|lines| - 1], lines[|lines| - 1];
      SiteRecords(front) + if IsSiteRecord(line) then {line.event.key} else {}
  }

  function ModuleRecords(lines: seq<Line>): set<U64> {
    if lines == [] then {}
    else
      var front, line := lines[..|lines| - 1], lines[|lines| - 1];
      ModuleRecords(front) + if IsModuleRecord(line) then {line.event.mod} else {}
  }

  /** Every counts row of the file, accepted or not. */
  function AllRows(lines: seq<Line>): seq<Row> {
    if lines == [] then []
    else
      var front, line := lines[..|lines| - 1], lines[|lines| - 1];
      if IsRow(line) then AllRows(front) + [Row(line.event.key, line.event.counts)] else AllRows(front)
  }

  predicate IsStart(e: Event, mod: U64, workers: U64) {
    e.ExecutionEvent? && e.mod == mod && e.workers == workers && e.status == Start
  }

  predicate IsEnd(e: Event, mod: U64, workers: U64) {
    e.ExecutionEvent? && e.mod == mod && e.workers == workers && e.status != Start && e.status != OtherStatus
  }

  /** Rows of one module, each for another site. */
  ghost predicate DistinctRows(rows: seq<Event>, mod: U64) {
    && (forall k :: 0 <= k < |rows| ==> rows[k].CountsEvent? && rows[k].key.mod == mod)
    && (forall j, k :: 0 <= j < k < |rows| ==> rows[j].key != rows[k].key)
  }

  ghost function SitesIn(rows: seq<Event>): set<U64> {
    set k | 0 <= k < |rows| && rows[k].CountsEvent? :: rows[k].key.site
  }

  /** One start, then one row for each of the given sites, then one end. */
  ghost predicate WholeStory(story: seq<Event>, mod: U64, workers: U64, sites: set<U64>) {
    && |story| >= 2
    && IsStart(story[0], mod, workers) && IsEnd(story[|story| - 1], mod, workers)
    && DistinctRows(story[1..|story| - 1], mod)
    && SitesIn(story[1..|story| - 1]) == sites
  }

  /** What has been read so far of an execution that has started. */
  ghost predicate ToldSoFar(story: seq<Event>, run: Execution) {
    if run.terminal then WholeStory(story, run.mod, run.workers, run.sites)
    else
      && |story| >= 1 && IsStart(story[0], run.mod, run.workers)
      && DistinctRows(story[1..], run.mod) && SitesIn(story[1..]) == run.sites
  }

  ghost predicate RunOk(g: Graph, x: U64, story: seq<Event>) {
    if x in g.executions then
      var run := g.executions[x];
      ToldSoFar(story, run) && forall s :: s in run.sites ==> SiteKey(run.mod, s) in g.sites
    else story == []
  }

  ghost predicate FollowsStream(g: Graph, lines: seq<Line>) {
    && g.mode == CountsOnly
    && g.sites == SiteRecords(lines) && g.modules == ModuleRecords(lines)
    && (forall x :: RunOk(g, x, Story(lines, x)))
    && AcceptedRows(lines) == AllRows(lines)
  }

  // --------------------------------------------------------------------------------- one record

  lemma RowTold(story: seq<Event>, run: Execution, e: Event)
    requires ToldSoFar(story, run) && !run.terminal
    requires e.CountsEvent? && e.key.mod == run.mod && e.key.site !in run.sites
    ensures ToldSoFar(story + [e], run.(sites := run.sites + {e.key.site}))
  {
    var rows, rows' := story[1..], (story + [e])[1..];
    assert rows' == rows + [e];
    forall k | 0 <= k < |rows| ensures rows'[k] == rows[k] && rows[k].key != e.key {
      assert rows[k].key.site in SitesIn(rows);
    }
    assert SitesIn(rows') == SitesIn(rows) + {e.key.site} by {
      forall s ensures s in SitesIn(rows') <==> s in SitesIn(rows) || s == e.key.site {
        if s in SitesIn(rows) {
          var k :| 0 <= k < |rows| && rows[k].CountsEvent? && rows[k].key.site == s;
          assert rows'[k] == rows[k];
        }
        assert rows'[|rows|] == e;
      }
    }
  }

  lemma EndTold(story: seq<Event>, run: Execution, e: Event)
    requires ToldSoFar(story, run) && !run.terminal && IsEnd(e, run.mod, run.workers)
    ensures ToldSoFar(story + [e], run.(terminal := true))
  {
    var s := story + [e];
    assert s[1..|s| - 1] == story[1..];
  }

  lemma StartTold(e: Event, run: Execution)
    requires IsStart(e, run.mod, run.workers) && run.sites == {} && !run.terminal
    ensures ToldSoFar([e], run)
  {
    assert [e][1..] == [];
  }

  /** Execution `x` is as it was, and no name was lost. */
  ghost predicate SameRun(g: Graph, g': Graph, x: U64) {
    && g.sites <= g'.sites && (x in g.executions <==> x in g'.executions)
    && (x in g.executions ==> g'.executions[x] == g.executions[x])
  }

  lemma CountRowEffect(g: Graph, execution: U64, key: SiteKey, counts: Counts)
    ensures var g' := CountRow(g, execution, key, counts);
            && g'.diagnostics >= g.diagnostics && g'.mode == g.mode && g'.sites == g.sites && g'.modules == g.modules
  {
    hide AddCounts;
  }

  lemma CountRowElsewhere(g: Graph, execution: U64, key: SiteKey, counts: Counts, x: U64)
    requires x != execution
    ensures SameRun(g, CountRow(g, execution, key, counts), x)
  {
    hide AddCounts;
  }

  lemma ExecuteEffect(g: Graph, execution: U64, mod: U64, workers: U64, status: Status, no: U64, ts: U64)
    ensures var g' := Execute(g, execution, mod, workers, status, no, ts);
            && g'.diagnostics >= g.diagnostics && g'.mode == g.mode && g'.sites == g.sites && g'.modules == g.modules
  {
    hide ExecutionAccepted, Marked, EntryOf;
  }

  lemma ExecuteElsewhere(g: Graph, execution: U64, mod: U64, workers: U64, status: Status, no: U64, ts: U64, x: U64)
    requires x != execution
    ensures SameRun(g, Execute(g, execution, mod, workers, status, no, ts), x)
  {
  }

  /** In counts mode no record takes a diagnostic back. */
  lemma DiagnosticsGrow(g: Graph, e: Event, no: U64, ts: U64)
    requires g.mode == CountsOnly
    ensures Record(g, e, no, ts).diagnostics >= g.diagnostics && Record(g, e, no, ts).mode == CountsOnly
  {
    hide CountRow, Execute, Record;
    RunRecord(g, e, no, ts);
    if e.CountsEvent? {
      CountRowEffect(g, e.execution, e.key, e.counts);
    } else if e.ExecutionEvent? {
      ExecuteEffect(g, e.execution, e.mod, e.workers, e.status, no, ts);
    } else {
      PlainRecord(g, e, no, ts);
    }
  }

  /** A record that draws no diagnostic. */
  ghost predicate Accepted(g: Graph, e: Event, no: U64, ts: U64) {
    g.mode == CountsOnly && Record(g, e, no, ts).diagnostics == g.diagnostics
  }

  /** What an accepted record of a counts capture does. */
  lemma AcceptedShape(g: Graph, e: Event, no: U64, ts: U64)
    requires Accepted(g, e, no, ts)
    ensures Record(g, e, no, ts)
         == (if e.CountsEvent? then CountRow(g, e.execution, e.key, e.counts)
             else if e.ExecutionEvent? then Execute(g, e.execution, e.mod, e.workers, e.status, no, ts)
             else if e.SiteEvent? then g.(sites := g.sites + {e.key})
             else if e.ModuleEvent? then g.(modules := g.modules + {e.mod})
             else g)
  {
    hide CountRow, Execute, Record;
    RunRecord(g, e, no, ts);
    if !e.CountsEvent? && !e.ExecutionEvent? { PlainRecord(g, e, no, ts); }
  }

  lemma OtherRunsStay(g: Graph, e: Event, no: U64, ts: U64, x: U64)
    requires Accepted(g, e, no, ts)
    requires (e.CountsEvent? ==> e.execution != x) && (e.ExecutionEvent? ==> e.execution != x)
    ensures SameRun(g, Record(g, e, no, ts), x)
  {
    AcceptedShape(g, e, no, ts);
    if e.CountsEvent? {
      hide CountRow, Record, SameRun;
      CountRowElsewhere(g, e.execution, e.key, e.counts, x);
    } else if e.ExecutionEvent? {
      hide Execute, Record, SameRun;
      ExecuteElsewhere(g, e.execution, e.mod, e.workers, e.status, no, ts, x);
    } else {
      hide Record;
    }
  }

  lemma RowRun(g: Graph, e: Event, no: U64, ts: U64, story: seq<Event>)
    requires Accepted(g, e, no, ts) && e.CountsEvent? && RunOk(g, e.execution, story)
    ensures RowAccepted(g, e.execution, e.key)
    ensures RunOk(Record(g, e, no, ts), e.execution, story + [e])
  {
    hide AddCounts, ToldSoFar;
    assert RowAccepted(g, e.execution, e.key);
    RowTold(story, g.executions[e.execution], e);
  }

  /** An execution record that draws no diagnostic was accepted, and marks its execution. */
  lemma TakenExecution(g: Graph, e: Event, no: U64, ts: U64)
    requires Accepted(g, e, no, ts) && e.ExecutionEvent?
    ensures g.mode == CountsOnly && ExecutionAccepted(g, e.execution, e.mod, e.workers, e.status)
    ensures var g' := Record(g, e, no, ts);
            g'.sites == g.sites && g'.executions == Marked(g, e.execution, e.mod, e.workers, e.status)
  {
    RunRecord(g, e, no, ts);
    hide Record, ExecutionAccepted, Marked, EntryOf;
  }

  lemma ExecutionRun(g: Graph, e: Event, no: U64, ts: U64, story: seq<Event>)
    requires Accepted(g, e, no, ts) && e.ExecutionEvent? && RunOk(g, e.execution, story)
    ensures RunOk(Record(g, e, no, ts), e.execution, story + [e])
  {
    TakenExecution(g, e, no, ts);
    hide ToldSoFar, Record, Accepted, EntryOf;
    if e.status == Start {
      assert story == [] && story + [e] == [e];
      StartTold(e, Execution(e.mod, e.workers, false, {}));
    } else {
      EndTold(story, g.executions[e.execution], e);
    }
  }

  lemma RunAfter(g: Graph, line: Line, x: U64, story: seq<Event>)
    requires Readable(line) && Accepted(g, line.event, line.no.value, line.ts.value) && RunOk(g, x, story)
    ensures RunOk(Record(g, line.event, line.no.value, line.ts.value), x,
                  if Concerns(line, x) then story + [line.event] else story)
  {
    hide Record, Accepted, ToldSoFar;
    var e, no, ts := line.event, line.no.value, line.ts.value;
    if Concerns(line, x) {
      hide RunOk;
      if e.CountsEvent? {
        RowRun(g, e, no, ts, story);
      } else {
        ExecutionRun(g, e, no, ts, story);
      }
    } else {
      OtherRunsStay(g, e, no, ts, x);
    }
  }

  lemma NamesAfter(g: Graph, line: Line)
    requires Readable(line) && Accepted(g, line.event, line.no.value, line.ts.value)
    ensures var g' := Record(g, line.event, line.no.value, line.ts.value);
            && g'.sites == g.sites + (if IsSiteRecord(line) then {line.event.key} else {})
            && g'.modules == g.modules + (if IsModuleRecord(line) then {line.event.mod} else {})
  {
    var e := line.event;
    AcceptedShape(g, e, line.no.value, line.ts.value);
    hide CountRow, Execute, Record;
    if e.CountsEvent? {
      CountRowEffect(g, e.execution, e.key, e.counts);
    } else if e.ExecutionEvent? {
      ExecuteEffect(g, e.execution, e.mod, e.workers, e.status, line.no.value, line.ts.value);
    }
  }

  // --------------------------------------------------------------------------------- the stream

  ghost predicate Clean(lines: seq<Line>) {
    ReadLines(CountsOnly, lines).graph.diagnostics == 0
  }

  lemma {:induction false} CountsModeKept(lines: seq<Line>)
    ensures ReadLines(CountsOnly, lines).graph.mode == CountsOnly
  {
    if lines != [] {
      hide ReadLine, Record;
      var front, line := lines[..|lines| - 1], lines[|lines| - 1];
      CountsModeKept(front);
      var counted := ReadLineShape(ReadLines(CountsOnly, front), line);
      if Readable(line) { DiagnosticsGrow(counted, line.event, line.no.value, line.ts.value); }
    }
  }

  /** A stream without diagnostics had none one line earlier, and its last line was accepted. */
  lemma CleanStep(lines: seq<Line>, line: Line)
    requires Clean(lines + [line])
    ensures Clean(lines)
    ensures var g, g' := ReadLines(CountsOnly, lines).graph, ReadLines(CountsOnly, lines + [line]).graph;
            if Readable(line)
            then g' == Record(g, line.event, line.no.value, line.ts.value) && Accepted(g, line.event, line.no.value, line.ts.value)
            else g' == g
  {
    hide ReadLine, Record;
    assert (lines + [line])[..|lines|] == lines;
    var r := ReadLines(CountsOnly, lines);
    CountsModeKept(lines);
    var counted := ReadLineShape(r, line);
    if Readable(line) { DiagnosticsGrow(counted, line.event, line.no.value, line.ts.value); }
    assert counted == r.graph;
  }

  lemma StoryOneMore(lines: seq<Line>, line: Line, x: U64)
    ensures Story(lines + [line], x) == (if Concerns(line, x) then Story(lines, x) + [line.event] else Story(lines, x))
    ensures !Readable(line) ==> !Concerns(line, x)
  {
    assert (lines + [line])[..|lines|] == lines;
  }

  lemma NamesOneMore(lines: seq<Line>, line: Line)
    ensures SiteRecords(lines + [line]) == SiteRecords(lines) + if IsSiteRecord(line) then {line.event.key} else {}
    ensures ModuleRecords(lines + [line]) == ModuleRecords(lines) + if IsModuleRecord(line) then {line.event.mod} else {}
  {
    assert (lines + [line])[..|lines|] == lines;
  }

  lemma RowsOneMore(lines: seq<Line>, line: Line)
    requires AcceptedRows(lines) == AllRows(lines)
    requires IsRow(line) ==> RowAccepted(ReadLines(CountsOnly, lines).graph, line.event.execution, line.event.key)
    ensures AcceptedRows(lines + [line]) == AllRows(lines + [line])
  {
    hide ReadLines, RowAccepted;
    assert (lines + [line])[..|lines|] == lines;
  }

  lemma CleanStepFollows(lines: seq<Line>, line: Line)
    requires Clean(lines + [line]) && FollowsStream(ReadLines(CountsOnly, lines).graph, lines)
    ensures FollowsStream(ReadLines(CountsOnly, lines + [line]).graph, lines + [line])
  {
    hide Clean, ReadLines, Record, Story, SiteRecords, ModuleRecords, AllRows, AcceptedRows, RunOk, Accepted, RowAccepted, Concerns;
    var g, g' := ReadLines(CountsOnly, lines).graph, ReadLines(CountsOnly, lines + [line]).graph;
    CleanStep(lines, line);
    CountsModeKept(lines + [line]);
    NamesOneMore(lines, line);
    forall x ensures RunOk(g', x, Story(lines + [line], x)) {
      StoryOneMore(lines, line, x);
      assert RunOk(g, x, Story(lines, x));
      if Readable(line) {
        RunAfter(g, line, x, Story(lines, x));
      }
    }
    if Readable(line) { NamesAfter(g, line); }
    if IsRow(line) { RowRun(g, line.event, line.no.value, line.ts.value, Story(lines, line.event.execution)); }
    RowsOneMore(lines, line);
  }

  lemma NothingFollows()
    ensures FollowsStream(ReadLines(CountsOnly, []).graph, [])
  {
  }

  lemma {:induction false} CleanFollows(lines: seq<Line>)
    requires Clean(lines)
    ensures FollowsStream(ReadLines(CountsOnly, lines).graph, lines)
  {
    hide Clean, FollowsStream, ReadLines, Record, Accepted, Readable;
    if lines == [] {
      NothingFollows();
    } else {
      var front, line := lines[..|lines| - 1], lines[|lines| - 1];
      assert lines == front + [line];
      CleanStep(front, line);
      CleanFollows(front);
      CleanStepFollows(front, line);
    }
  }

  // -------------------------------------------------------------------------------- the verdict

  lemma {:induction false} NoFaults(g: Graph, runs: map<U64, Execution>, x: U64)
    requires AllFaults(g, runs) == 0 && x in runs
    ensures ExecutionFaults(g, runs[x]) == 0
    decreases runs.Keys
  {
    hide ExecutionFaults;
    var e := LeastKey(runs.Keys);
    if x != e {
      NoFaults(g, runs - {e}, x);
    }
  }

  lemma {:induction false} AllOfThem<T>(a: set<T>, b: set<T>)
    requires a <= b && |a| == |b|
    ensures a == b
  {
    if x :| x in b && x !in a {
      assert |b - {x}| == |b| - 1;
      SubsetIsSmaller(a, b - {x});
    }
  }

  lemma CompleteIsClean(lines: seq<Line>)
    requires ImportOf(CountsOnly, lines).complete
    ensures Clean(lines) && ReadLines(CountsOnly, lines).footer
    ensures var g := ReadLines(CountsOnly, lines).graph; g.mode == CountsOnly && AllFaults(g, g.executions) == 0
  {
    hide ReadLines, MissingEndpoints, AllFaults;
    CountsModeKept(lines);
    var r := ReadLines(CountsOnly, lines);
    assert Diagnosed(r, CountIf(!r.footer)).graph == r.graph;
  }

  /**
   In a complete capture the records about any execution are: one start; then exactly one counts
   row for every site that the file lists for its module; then one end with the same module and
   workers. The module is listed too.
   */
  lemma CompleteRunsAreWhole(lines: seq<Line>, x: U64)
    requires ImportOf(CountsOnly, lines).complete && Story(lines, x) != []
    ensures var story := Story(lines, x);
            && story[0].ExecutionEvent?
            && story[0].mod in ModuleRecords(lines)
            && WholeStory(story, story[0].mod, story[0].workers, SitesOf(SiteRecords(lines), story[0].mod))
  {
    hide AllFaults, ReadLines, Story, SiteRecords, ModuleRecords, DistinctRows, SitesIn;
    CompleteIsClean(lines);
    CleanFollows(lines);
    var g := ReadLines(CountsOnly, lines).graph;
    assert RunOk(g, x, Story(lines, x));
    NoFaults(g, g.executions, x);
    var run := g.executions[x];
    AllOfThem(run.sites, SitesOf(g.sites, run.mod));
  }

  /**
   A complete capture accepted every counts row of the file; its totals are the saturated sums
   of them all, and when it also says that the counts are exact, they are the true sums.
   */
  lemma CompleteTotalsAreAll(lines: seq<Line>)
    requires ImportOf(CountsOnly, lines).complete
    ensures var g := ImportOf(CountsOnly, lines).graph;
            && IsTotal(g.total, AllRows(lines), None)
            && (forall key :: key in g.counts <==> AnySelected(AllRows(lines), Some(key)))
            && (forall key :: key in g.counts ==> IsTotal(g.counts[key], AllRows(lines), Some(key)))
  {
    hide ReadLines, AllRows, AcceptedRows, IsTotal, AnySelected, AllFaults, MissingEndpoints, RunOk;
    CompleteIsClean(lines);
    CleanFollows(lines);
    TotalsAreSaturatedSums(lines);
  }

  lemma ExactCountsAreTrueSums(lines: seq<Line>)
    requires ImportOf(CountsOnly, lines).countsExact
    ensures var g := ImportOf(CountsOnly, lines).graph;
            && (forall column :: Of(g.total, column) == TrueSum(AllRows(lines), None, column))
            && (forall key, column :: key in g.counts ==> Of(g.counts[key], column) == TrueSum(AllRows(lines), Some(key), column))
            && !AnyFlagged(AllRows(lines), None)
  {
    hide ReadLines, AllRows, AnySelected, Of, TrueSum, Finish;
    CompleteTotalsAreAll(lines);
    var g := ImportOf(CountsOnly, lines).graph;
    ExactTotalExactSites(g.total, g.total, AllRows(lines), None);
    forall key | key in g.counts ensures forall column :: Of(g.counts[key], column) == TrueSum(AllRows(lines), Some(key), column) {
      ExactTotalExactSites(g.total, g.counts[key], AllRows(lines), Some(key));
    }
  }

  // ---------------------------------------------------------------------------------- the log

  /** Every execution record of the file, in order. */
  function ExecutionsShown(lines: seq<Line>): seq<Logged> {
    if lines == [] then []
    else
      var last := lines[|lines| - 1];
      ExecutionsShown(lines[..|lines| - 1])
      + if Readable(last) && last.event.ExecutionEvent?
        then [Logged(last.no.value, last.ts.value, last.event.workers, last.event.status,
                     Some(last.event.execution), Some(last.event.mod))]
        else []
  }

  lemma LogAfter(g: Graph, e: Event, no: U64, ts: U64)
    requires Accepted(g, e, no, ts)
    ensures Record(g, e, no, ts).log
         == g.log + if e.ExecutionEvent? then [Logged(no, ts, e.workers, e.status, Some(e.execution), Some(e.mod))] else []
  {
    AcceptedShape(g, e, no, ts);
    if e.CountsEvent? { CountRowKeepsLog(g, e.execution, e.key, e.counts); }
    if e.ExecutionEvent? { TakenExecution(g, e, no, ts); }
    hide Record, CountRow, ExecutionAccepted, Marked;
  }

  lemma CountRowKeepsLog(g: Graph, execution: U64, key: SiteKey, counts: Counts)
    ensures CountRow(g, execution, key, counts).log == g.log
  {
    hide AddCounts, RowAccepted;
  }

  lemma {:induction false} CleanLog(lines: seq<Line>)
    requires Clean(lines)
    ensures ReadLines(CountsOnly, lines).graph.log == ExecutionsShown(lines)
  {
    if lines != [] {
      hide Clean, ReadLine, Record, Accepted;
      var front, line := lines[..|lines| - 1], lines[|lines| - 1];
      assert lines == front + [line];
      CleanStep(front, line);
      CleanLog(front);
      if Readable(line) {
        LogAfter(ReadLines(CountsOnly, front).graph, line.event, line.no.value, line.ts.value);
      }
    }
  }

  /** A complete capture lists every execution record of the file, as it was. */
  lemma CompleteLogIsAll(lines: seq<Line>)
    requires ImportOf(CountsOnly, lines).complete
    ensures ImportOf(CountsOnly, lines).graph.log == ExecutionsShown(lines)
  {
    CompleteIsClean(lines);
    CleanLog(lines);
    hide ReadLines, AllFaults, MissingEndpoints, ExecutionsShown;
  }
}
