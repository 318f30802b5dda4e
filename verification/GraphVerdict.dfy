/**
 When a source-counts capture is called complete: exactly when the file, read line by line, has
 nothing wrong with it. The conditions are about the lines alone.
 */
module GraphVerdict {
  import opened Numbers
  import opened Options
  import opened EvalGraph
  import opened GraphLimits
  import opened GraphTotals
  import opened GraphRuns

  // ------------------------------------------------------------------------ a well-formed file

  function TimeOf(line: Line): U64 {
    if line.Garbled? || line.ts.None? then 0 else line.ts.value
  }

  function LastTime(lines: seq<Line>): U64 {
    if lines == [] then 0 else TimeOf(lines[|lines| - 1])
  }

  predicate HasFooter(lines: seq<Line>) {
    lines != [] && (HasFooter(lines[..|lines| - 1]) || lines[|lines| - 1].Footer?)
  }

  /** The line counts itself, is not older than the one before it, and follows no footer. */
  predicate InSequence(lines: seq<Line>, line: Line) {
    && !line.Garbled? && line.no.Some? && line.ts.Some?
    && line.no.value == |lines| + 1 && LastTime(lines) <= line.ts.value && !HasFooter(lines)
  }

  /** The execution has started and not ended. */
  predicate IsOpen(story: seq<Event>) {
    story != [] && story[0].ExecutionEvent? && (|story| == 1 || !story[|story| - 1].ExecutionEvent?)
  }

  ghost predicate RowFine(lines: seq<Line>, x: U64, key: SiteKey) {
    var story := Story(lines, x);
    && key in SiteRecords(lines)
    && IsOpen(story) && story[0].mod == key.mod && key.site !in SitesIn(story[1..])
  }

  predicate ExecutionFine(lines: seq<Line>, x: U64, mod: U64, workers: U64, status: Status) {
    var story := Story(lines, x);
    if status == Start then story == []
    else status != OtherStatus && IsOpen(story) && IsStart(story[0], mod, workers)
  }

  ghost predicate EventFine(lines: seq<Line>, e: Event, no: U64) {
    match e
    case Header(_) => no == 1
    case ModuleEvent(m) => m !in ModuleRecords(lines)
    case SiteEvent(key) => key !in SiteRecords(lines)
    case CountsEvent(x, key, _) => RowFine(lines, x, key)
    case ExecutionEvent(x, mod, workers, status) => ExecutionFine(lines, x, mod, workers, status)
    case _ => false
  }

  /** A header on the first line says that the file has one record so far, itself. */
  predicate HeaderCountsItself(lines: seq<Line>, line: Line) {
    lines == [] && line.Line? && line.event.Header? && line.event.info.Some? ==> line.event.info.value.records == 1
  }

  lemma HeaderFaultExact(lines: seq<Line>, line: Line)
    ensures HeaderFault(|lines| + 1, line) == 0 <==> HeaderCountsItself(lines, line)
  {
  }

  ghost predicate LineFine(lines: seq<Line>, line: Line) {
    && InSequence(lines, line) && HeaderCountsItself(lines, line)
    && if line.Footer? then line.complete == Some(true) && line.records == line.no
       else EventFine(lines, line.event, line.no.value)
  }

  ghost predicate AllFine(lines: seq<Line>) {
    lines == [] || (AllFine(lines[..|lines| - 1]) && LineFine(lines[..|lines| - 1], lines[|lines| - 1]))
  }

  /** Every execution is whole: a start, a row for every site listed for its module, and an end. */
  ghost predicate RunsWhole(lines: seq<Line>) {
    forall x {:trigger Story(lines, x)} :: Story(lines, x) != [] ==> RunWhole(lines, Story(lines, x))
  }

  ghost predicate RunWhole(lines: seq<Line>, story: seq<Event>)
    requires story != []
  {
    && story[0].ExecutionEvent? && story[0].mod in ModuleRecords(lines)
    && WholeStory(story, story[0].mod, story[0].workers, SitesOf(SiteRecords(lines), story[0].mod))
  }

  ghost predicate SitesHaveModules(lines: seq<Line>) {
    forall key :: key in SiteRecords(lines) ==> key.mod in ModuleRecords(lines)
  }

  /** The file says that it is a counts capture, and each line is as it should be. */
  ghost predicate WellFormed(lines: seq<Line>) {
    && BeginsAs(lines, CountsOnly)
    && AllFine(lines) && HasFooter(lines) && RunsWhole(lines) && SitesHaveModules(lines)
  }

  // ----------------------------------------------------------------------- one event, one line

  lemma OpenRun(story: seq<Event>, run: Execution)
    requires ToldSoFar(story, run)
    ensures IsOpen(story) <==> !run.terminal
    ensures story != [] && IsStart(story[0], run.mod, run.workers)
    ensures !run.terminal ==> SitesIn(story[1..]) == run.sites
  {
    if !run.terminal && |story| > 1 {
      assert story[1..][|story| - 2] == story[|story| - 1];
    }
  }

  lemma RowExact(g: Graph, lines: seq<Line>, x: U64, key: SiteKey)
    requires g.mode == CountsOnly && g.sites == SiteRecords(lines) && RunOk(g, x, Story(lines, x))
    ensures RowAccepted(g, x, key) <==> RowFine(lines, x, key)
  {
    hide ToldSoFar, SitesIn, Story, SiteRecords;
    if x in g.executions {
      OpenRun(Story(lines, x), g.executions[x]);
    }
  }

  lemma ExecutionExact(g: Graph, lines: seq<Line>, x: U64, mod: U64, workers: U64, status: Status, no: U64, ts: U64)
    requires g.mode == CountsOnly && RunOk(g, x, Story(lines, x))
    ensures Execute(g, x, mod, workers, status, no, ts).diagnostics == g.diagnostics <==> ExecutionFine(lines, x, mod, workers, status)
  {
    hide ToldSoFar, SitesIn, Story, SiteRecords;
    if x in g.executions {
      OpenRun(Story(lines, x), g.executions[x]);
    }
  }

  lemma RowDiagnosed(g: Graph, x: U64, key: SiteKey, counts: Counts)
    ensures CountRow(g, x, key, counts).diagnostics == g.diagnostics <==> RowAccepted(g, x, key)
  {
    hide AddCounts, RowAccepted;
  }

  /** A record draws no diagnostic exactly if it is fine after the lines before it. */
  lemma EventExact(g: Graph, lines: seq<Line>, e: Event, no: U64, ts: U64)
    requires FollowsStream(g, lines)
    ensures Accepted(g, e, no, ts) <==> EventFine(lines, e, no)
  {
    hide RunOk, Story, SiteRecords, ModuleRecords, AllRows, AcceptedRows, RowFine, ExecutionFine, RowAccepted;
    hide CountRow, Execute, Allocate, Invoke, Relate, CacheOutcome;
    if e.CountsEvent? {
      assert RunOk(g, e.execution, Story(lines, e.execution));
      RowDiagnosed(g, e.execution, e.key, e.counts);
      RowExact(g, lines, e.execution, e.key);
    } else if e.ExecutionEvent? {
      assert RunOk(g, e.execution, Story(lines, e.execution));
      ExecutionExact(g, lines, e.execution, e.mod, e.workers, e.status, no, ts);
    }
  }

  /** The reader's position after clean lines. */
  ghost predicate AtEndOf(r: Reader, lines: seq<Line>) {
    && r.graph.diagnostics == 0 && r.records == |lines| && r.lastSeq == |lines|
    && r.lastTs == LastTime(lines) && r.footer == HasFooter(lines)
  }

  lemma FooterExact(r: Reader, no: U64, complete: Option<bool>, badReason: bool, records: Option<U64>)
    requires r.records == no && !r.footer
    ensures ReadFooter(r, no, complete, badReason, records).graph.diagnostics == r.graph.diagnostics
       <==> complete == Some(true) && records == Some(no)
    ensures ReadFooter(r, no, complete, badReason, records).footer
  {
  }

  lemma CheckedExact(r: Reader, lines: seq<Line>, line: Line)
    requires AtEndOf(r, lines) && !line.Garbled? && line.no.Some? && line.no.value != 0 && line.ts.Some?
    ensures var c := Checked(r.(records := r.records + 1), line.no.value, line.ts.value);
            && (c.graph.diagnostics == 0 <==> InSequence(lines, line))
            && (c.graph.diagnostics == 0 ==> c.graph == r.graph)
            && c.graph.mode == r.graph.mode && c.footer == r.footer && c.records == r.records + 1
            && c.lastSeq == line.no.value && c.lastTs == line.ts.value
  {
    hide HasFooter;
  }

  /** One more line draws no diagnostic exactly if it is fine, and the reader moves past it. */
  lemma LineExact(r: Reader, lines: seq<Line>, line: Line)
    requires AtEndOf(r, lines) && FollowsStream(r.graph, lines)
    ensures ReadLine(r, line).graph.diagnostics == 0 <==> LineFine(lines, line)
    ensures LineFine(lines, line) ==> AtEndOf(ReadLine(r, line), lines + [line])
  {
    hide FollowsStream, EventFine, Record, Checked, ReadFooter, HasFooter, HeaderFault, HeaderCountsItself;
    FooterOneMore(lines, line);
    HeaderFaultExact(lines, line);
    CleanMode(r.graph, lines);
    if HeaderFault(|lines| + 1, line) != 0 {
      FaultyHeader(r, line);
    } else if !line.Garbled? && line.no.Some? && line.no.value != 0 && line.ts.Some? {
      var r1 := r.(records := r.records + 1);
      assert Diagnosed(r1, 0) == r1;
      var c := Checked(r1, line.no.value, line.ts.value);
      CheckedExact(r, lines, line);
      if line.Line? {
        DiagnosticsGrow(c.graph, line.event, line.no.value, line.ts.value);
        EventExact(r.graph, lines, line.event, line.no.value, line.ts.value);
      } else if c.graph.diagnostics == 0 {
        FooterExact(c, line.no.value, line.complete, line.badReason, line.records);
        FooterCursor(c, line.no.value, line.complete, line.badReason, line.records);
      } else {
        FooterGrows(c, line.no.value, line.complete, line.badReason, line.records);
      }
    }
  }

  lemma FaultyHeader(r: Reader, line: Line)
    requires r.graph.mode == CountsOnly && HeaderFault(r.records + 1, line) != 0
    ensures ReadLine(r, line).graph.diagnostics > 0
  {
    hide Record;
    if Readable(line) {
      var c := Checked(Diagnosed(r.(records := r.records + 1), 1), line.no.value, line.ts.value);
      DiagnosticsGrow(c.graph, line.event, line.no.value, line.ts.value);
    }
  }

  lemma CleanMode(g: Graph, lines: seq<Line>)
    requires FollowsStream(g, lines)
    ensures g.mode == CountsOnly
  {
    hide RunOk, Story, SiteRecords, ModuleRecords, AllRows, AcceptedRows;
  }

  lemma FooterOneMore(lines: seq<Line>, line: Line)
    ensures HasFooter(lines + [line]) == (HasFooter(lines) || line.Footer?)
  {
    assert (lines + [line])[..|lines|] == lines;
  }

  lemma FooterGrows(r: Reader, no: U64, complete: Option<bool>, badReason: bool, records: Option<U64>)
    ensures ReadFooter(r, no, complete, badReason, records).graph.diagnostics >= r.graph.diagnostics
  {
  }

  lemma FooterCursor(r: Reader, no: U64, complete: Option<bool>, badReason: bool, records: Option<U64>)
    ensures var r' := ReadFooter(r, no, complete, badReason, records);
            r'.records == r.records && r'.lastSeq == r.lastSeq && r'.lastTs == r.lastTs
  {
  }

  // --------------------------------------------------------------------------------- the verdict

  /** Reading draws no diagnostic exactly if every line is fine after those before it. */
  lemma {:induction false} CleanExactly(lines: seq<Line>)
    ensures Clean(lines) <==> AllFine(lines)
    ensures Clean(lines) ==> AtEndOf(ReadLines(CountsOnly, lines), lines)
  {
    if lines != [] {
      hide ReadLine, LineFine, FollowsStream, AtEndOf;
      var front, line := lines[..|lines| - 1], lines[|lines| - 1];
      assert lines == front + [line];
      CleanExactly(front);
      if Clean(front) {
        CleanFollows(front);
        LineExact(ReadLines(CountsOnly, front), front, line);
      } else {
        NotCleanAgain(front, line);
      }
    }
  }

  lemma NotCleanAgain(lines: seq<Line>, line: Line)
    requires !Clean(lines)
    ensures !Clean(lines + [line])
  {
    hide Clean, ReadLines, Accepted;
    if Clean(lines + [line]) { CleanStep(lines, line); }
  }

  /** A counts capture has no nodes, and counts only sites it has listed. */
  ghost predicate CountsShape(g: Graph) {
    g.nodes == map[] && g.bodyStarts == map[] && g.counts.Keys <= g.sites
  }

  lemma ShapeKept(g: Graph, e: Event, no: U64, ts: U64)
    requires CountsShape(g) && Accepted(g, e, no, ts)
    ensures CountsShape(Record(g, e, no, ts))
  {
    AcceptedShape(g, e, no, ts);
    hide Record, Accepted, AddCounts;
  }

  lemma {:induction false} CleanShape(lines: seq<Line>)
    requires Clean(lines)
    ensures CountsShape(ReadLines(CountsOnly, lines).graph)
  {
    if lines != [] {
      hide Clean, ReadLine, Record, CountsShape, Accepted;
      var front, line := lines[..|lines| - 1], lines[|lines| - 1];
      assert lines == front + [line];
      CleanStep(front, line);
      CleanShape(front);
      if Readable(line) {
        ShapeKept(ReadLines(CountsOnly, front).graph, line.event, line.no.value, line.ts.value);
      }
    }
  }

  lemma {:induction false} FaultlessRuns(g: Graph, runs: map<U64, Execution>)
    requires forall x :: x in runs ==> ExecutionFaults(g, runs[x]) == 0
    ensures AllFaults(g, runs) == 0
    decreases runs.Keys
  {
    hide ExecutionFaults;
    if runs != map[] {
      FaultlessRuns(g, runs - {LeastKey(runs.Keys)});
    }
  }

  /** A whole story belongs to an execution without faults. */
  lemma WholeIsFaultless(g: Graph, lines: seq<Line>, x: U64)
    requires FollowsStream(g, lines) && x in g.executions && RunsWhole(lines)
    ensures ExecutionFaults(g, g.executions[x]) == 0
  {
    hide Story, SiteRecords, ModuleRecords, AllRows, AcceptedRows, SitesIn, DistinctRows, IsEnd;
    var story, run := Story(lines, x), g.executions[x];
    assert RunOk(g, x, story);
    OpenRun(story, run);
    EndIsNotOpen(story, run.mod, run.workers, SitesOf(SiteRecords(lines), run.mod));
  }

  lemma EndIsNotOpen(story: seq<Event>, mod: U64, workers: U64, sites: set<U64>)
    requires WholeStory(story, mod, workers, sites)
    ensures !IsOpen(story)
  {
  }

  lemma NothingButModules(g: Graph)
    requires CountsShape(g)
    ensures MissingSites(g) == {} && MissingNodes(g) == {} && CountedSites(g) <= g.sites
  {
    assert CountedSites(g) == g.counts.Keys;
  }

  lemma NothingMissing(g: Graph, lines: seq<Line>)
    requires CountsShape(g) && g.sites == SiteRecords(lines) && g.modules == ModuleRecords(lines)
    ensures MissingEndpoints(g) == 0 <==> SitesHaveModules(lines)
  {
    hide SiteRecords, ModuleRecords;
    NothingButModules(g);
    hide MissingSites, MissingNodes, CountsShape;
    if SitesHaveModules(lines) {
      assert MissingModules(g) == {};
    } else {
      var key :| key in g.sites && key.mod !in g.modules;
      assert key.mod in MissingModules(g);
    }
  }

  /** The verdict says what it is made of. */
  lemma VerdictOf(lines: seq<Line>)
    ensures var r := ReadLines(CountsOnly, lines);
            ImportOf(CountsOnly, lines).complete
            <==> r.footer && Clean(lines) && AllFaults(r.graph, r.graph.executions) == 0 && MissingEndpoints(r.graph) == 0
  {
    hide ReadLines, AllFaults, MissingEndpoints;
    CountsModeKept(lines);
    var r := ReadLines(CountsOnly, lines);
    assert r.footer ==> Diagnosed(r, CountIf(!r.footer)).graph == r.graph;
  }

  lemma LinesFineExactly(lines: seq<Line>)
    ensures ImportOf(CountsOnly, lines).complete
       <==> AllFine(lines) && HasFooter(lines) && RunsWhole(lines) && SitesHaveModules(lines)
  {
    hide ImportOf, Clean, AllFine, RunWhole, ReadLines, AllFaults, MissingEndpoints, ExecutionFaults, HasFooter,
         SitesHaveModules, CountsShape, RunOk, AllRows, AcceptedRows;
    VerdictOf(lines);
    CleanExactly(lines);
    var g := ReadLines(CountsOnly, lines).graph;
    if Clean(lines) {
      CleanFollows(lines);
      CleanShape(lines);
      NothingMissing(g, lines);
      if RunsWhole(lines) {
        forall x | x in g.executions ensures ExecutionFaults(g, g.executions[x]) == 0 {
          WholeIsFaultless(g, lines, x);
        }
        FaultlessRuns(g, g.executions);
      }
    }
    if ImportOf(CountsOnly, lines).complete {
      CompleteIsWhole(lines);
    }
  }

  lemma CompleteIsWhole(lines: seq<Line>)
    requires ImportOf(CountsOnly, lines).complete
    ensures RunsWhole(lines)
  {
    hide ImportOf, Story, WholeStory;
    forall x | Story(lines, x) != [] ensures RunWhole(lines, Story(lines, x)) {
      CompleteRunsAreWhole(lines, x);
    }
  }

  /** A counts capture, by its own header, that was imported. */
  ghost predicate CountsCapture(limits: Limits, lines: seq<Line>) {
    Imported(limits, lines).Some? && BeginsAs(lines, CountsOnly)
  }

  /**
   An import is one of a complete counts capture if and only if the file is well formed and within
   the limits: its first line is the header of a counts capture that counts itself, every line is in
   sequence and fine after those before it, a footer ends it, every execution is whole, and the module
   of every site is listed.
   */
  lemma CompleteExactly(limits: Limits, lines: seq<Line>)
    ensures CountsCapture(limits, lines) && Imported(limits, lines).value.complete
       <==> WellFormed(lines) && WithinLimits(limits, CountsOnly, lines)
  {
    hide ImportOf, AllFine, HasFooter, RunsWhole, SitesHaveModules, WithinLimits;
    HeaderSays(lines);
    hide HeaderOf, BeginsAs;
    LinesFineExactly(lines);
  }

  /** Its counts are called exact if and only if, besides, no row was flagged and no true sum is too large. */
  lemma CountsExactExactly(limits: Limits, lines: seq<Line>)
    ensures CountsCapture(limits, lines) && Imported(limits, lines).value.countsExact
       <==> && WellFormed(lines) && WithinLimits(limits, CountsOnly, lines)
            && !AnyFlagged(AllRows(lines), None) && !AnyTooLarge(AllRows(lines), None)
  {
    HeaderSays(lines);
    hide WellFormed, AllRows, AnyFlagged, AnyTooLarge, Finish, ReadLines, AnySelected, WithinLimits, HeaderOf, BeginsAs;
    CompleteExactly(limits, lines);
    if ImportOf(CountsOnly, lines).complete {
      CompleteTotalsAreAll(lines);
    }
  }
}
