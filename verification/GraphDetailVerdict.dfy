/**
 When a detail capture is called complete: exactly when every line is in sequence and fits what came
 before it, a footer ends the file, and all that is mentioned is there.
 */
module GraphDetailVerdict {
  import opened Numbers
  import opened Options
  import opened EvalGraph
  import opened GraphCommute
  import opened GraphLimits
  import opened GraphRecords
  import opened GraphVerdict

  ghost predicate DetailFine(lines: seq<Line>, line: Line) {
    && InSequence(lines, line) && HeaderCountsItself(lines, line)
    && if line.Footer? then line.complete == Some(true) && line.records == line.no
       else Fits(Taken(lines), Stamped(line.event, line.no.value, line.ts.value))
  }

  ghost predicate AllDetailFine(lines: seq<Line>) {
    lines == [] || (AllDetailFine(lines[..|lines| - 1]) && DetailFine(lines[..|lines| - 1], lines[|lines| - 1]))
  }

  /** Every node that is named is defined, and every site that is called or listed has its lines. */
  ghost predicate NothingLacks(rs: seq<Stamped>) {
    && (forall id :: Named(rs, id) ==> Definer(rs, id).Some?)
    && (forall key :: StartsShown(rs, key) > 0 ==> key in SitesShown(rs))
    && (forall key :: key in SitesShown(rs) || StartsShown(rs, key) > 0 ==> key.mod in ModulesShown(rs))
  }

  // ------------------------------------------------------------------------------------ one line

  /** One more line draws no diagnostic exactly if it is fine, and the reader moves past it. */
  lemma DetailLineExact(r: Reader, lines: seq<Line>, line: Line)
    requires AtEndOf(r, lines) && DetailIs(r.graph, Taken(lines))
    ensures ReadLine(r, line).graph.diagnostics == 0 <==> DetailFine(lines, line)
    ensures DetailFine(lines, line) ==> AtEndOf(ReadLine(r, line), lines + [line])
  {
    hide DetailIs, Fits, Record, Checked, ReadFooter, HasFooter, HeaderFault, HeaderCountsItself;
    FooterOneMore(lines, line);
    HeaderFaultExact(lines, line);
    if HeaderFault(|lines| + 1, line) != 0 {
      FaultyDetailHeader(r, lines, line);
    } else if !line.Garbled? && line.no.Some? && line.no.value != 0 && line.ts.Some? {
      var r1 := r.(records := r.records + 1);
      assert Diagnosed(r1, 0) == r1;
      var c := Checked(r1, line.no.value, line.ts.value);
      CheckedExact(r, lines, line);
      if line.Line? {
        CheckedIs(r1, lines, line.no.value, line.ts.value);
        RecordStep(c.graph, Taken(lines), Stamped(line.event, line.no.value, line.ts.value));
      } else if c.graph.diagnostics == 0 {
        FooterExact(c, line.no.value, line.complete, line.badReason, line.records);
        FooterCursor(c, line.no.value, line.complete, line.badReason, line.records);
      } else {
        FooterGrows(c, line.no.value, line.complete, line.badReason, line.records);
      }
    }
  }

  lemma CheckedIs(r: Reader, lines: seq<Line>, no: U64, ts: U64)
    requires DetailIs(r.graph, Taken(lines))
    ensures DetailIs(Checked(r, no, ts).graph, Taken(lines))
  {
    hide DetailIs, Checked;
    CheckedDiagnoses(r, no, ts);
    DiagnosedIs(r.graph, Checked(r, no, ts).graph, Taken(lines));
  }

  lemma FaultyDetailHeader(r: Reader, lines: seq<Line>, line: Line)
    requires DetailIs(r.graph, Taken(lines)) && HeaderFault(r.records + 1, line) != 0
    ensures ReadLine(r, line).graph.diagnostics > 0
  {
    hide Record, DetailIs, Fits;
    if Readable(line) {
      var r1 := Diagnosed(r.(records := r.records + 1), 1);
      DiagnosedIs(r.graph, r1.graph, Taken(lines));
      CheckedIs(r1, lines, line.no.value, line.ts.value);
      RecordStep(Checked(r1, line.no.value, line.ts.value).graph, Taken(lines),
                 Stamped(line.event, line.no.value, line.ts.value));
    }
  }

  lemma DiagnosticsStay(r: Reader, lines: seq<Line>, line: Line)
    requires DetailIs(r.graph, Taken(lines))
    ensures ReadLine(r, line).graph.diagnostics >= r.graph.diagnostics
  {
    hide DetailIs, ReadLine, Record, Fits;
    var counted := ReadLineShape(r, line);
    DiagnosedIs(r.graph, counted, Taken(lines));
    if Readable(line) {
      RecordStep(counted, Taken(lines), Stamped(line.event, line.no.value, line.ts.value));
    }
  }

  lemma NothingRead()
    ensures ReadLines(Detail, []).graph.diagnostics == 0 && AllDetailFine([]) && AtEndOf(ReadLines(Detail, []), [])
  {
  }

  lemma {:induction false} DetailCleanExactly(lines: seq<Line>)
    ensures ReadLines(Detail, lines).graph.diagnostics == 0 <==> AllDetailFine(lines)
    ensures AllDetailFine(lines) ==> AtEndOf(ReadLines(Detail, lines), lines)
  {
    if lines == [] {
      NothingRead();
    } else {
      var front, line := lines[..|lines| - 1], lines[|lines| - 1];
      hide ReadLine, DetailFine, DetailIs, AtEndOf;
      assert lines == front + [line];
      assert AllDetailFine(lines) <==> AllDetailFine(front) && DetailFine(front, line);
      assert ReadLines(Detail, lines) == ReadLine(ReadLines(Detail, front), line);
      hide AllDetailFine, ReadLines;
      DetailCleanExactly(front);
      ReadShows(front);
      if AllDetailFine(front) {
        DetailLineExact(ReadLines(Detail, front), front, line);
      } else {
        DiagnosticsStay(ReadLines(Detail, front), front, line);
      }
    }
  }

  // -------------------------------------------------------------------------------- the verdict

  lemma MissingExact(g: Graph, rs: seq<Stamped>)
    requires DetailIs(g, rs)
    ensures MissingEndpoints(g) == 0 <==> NothingLacks(rs)
  {
    hide EdgesAre, Named, Definer, StartsShown, NodeShown, Forces, AllStarts, Reports, LogShown, ModulesShown, SitesShown;
    MissingNodesExact(g, rs);
    MissingSitesExact(g, rs);
    hide MissingNodes, MissingSites, MissingModules, NodesAre, StartsAre;
  }

  lemma MissingNodesExact(g: Graph, rs: seq<Stamped>)
    requires NodesAre(g.nodes, rs)
    ensures |MissingNodes(g)| == 0 <==> forall id :: Named(rs, id) ==> Definer(rs, id).Some?
  {
    hide Definer, Named, NodeShown;
    forall id: NodeId ensures id in MissingNodes(g) <==> Named(rs, id) && Definer(rs, id).None? {
      DefinedIffDefiner(g.nodes, rs, id);
    }
  }

  lemma MissingSitesExact(g: Graph, rs: seq<Stamped>)
    requires DetailIs(g, rs)
    ensures |MissingSites(g)| == 0 <==> forall key :: StartsShown(rs, key) > 0 ==> key in SitesShown(rs)
    ensures |MissingModules(g)| == 0 <==>
              forall key :: key in SitesShown(rs) || StartsShown(rs, key) > 0 ==> key.mod in ModulesShown(rs)
  {
    NamesOfDetail(g, rs);
    hide DetailIs, StartsShown, SitesShown, ModulesShown, CountedSites;
    EmptyOrNot(MissingSites(g));
    EmptyOrNot(MissingModules(g));
    forall key: SiteKey ensures key in MissingSites(g) <==> StartsShown(rs, key) > 0 && key !in SitesShown(rs) {
    }
    hide MissingSites;
    MissingModuleOf(g);
  }

  lemma NamesOfDetail(g: Graph, rs: seq<Stamped>)
    requires DetailIs(g, rs)
    ensures g.sites == SitesShown(rs) && g.modules == ModulesShown(rs)
    ensures forall key :: key in CountedSites(g) <==> StartsShown(rs, key) > 0
  {
    hide EdgesAre, NodesAre, StartsShown, Forces, AllStarts, Reports, LogShown, ModulesShown, SitesShown;
    assert CountedSites(g) == g.bodyStarts.Keys;
  }

  lemma EmptyOrNot<T>(s: set<T>)
    ensures |s| == 0 <==> forall x :: x !in s
  {
    if |s| != 0 { var x :| x in s; }
  }

  /** A module is missing exactly if a site of it is listed or called. */
  lemma MissingModuleOf(g: Graph)
    ensures (forall m :: m !in MissingModules(g)) <==> forall key :: key in g.sites || key in CountedSites(g) ==> key.mod in g.modules
  {
    hide CountedSites;
    if forall m :: m !in MissingModules(g) {
      forall key: SiteKey | key in g.sites || key in CountedSites(g) ensures key.mod in g.modules {
        assert key.mod !in MissingModules(g);
      }
    }
  }

  /** The file says that it is a detail capture, each line is as it should be, and nothing is missing. */
  ghost predicate DetailWellFormed(lines: seq<Line>) {
    && BeginsAs(lines, Detail)
    && AllDetailFine(lines) && HasFooter(lines) && NothingLacks(Taken(lines))
  }

  lemma DetailVerdictOf(lines: seq<Line>)
    ensures var r := ReadLines(Detail, lines);
            ImportOf(Detail, lines).complete <==> r.footer && r.graph.diagnostics == 0 && MissingEndpoints(r.graph) == 0
  {
    hide ReadLines, MissingEndpoints;
    ReadShows(lines);
    var r := ReadLines(Detail, lines);
    assert r.graph.mode == Detail by { ShownMode(r.graph, Taken(lines)); }
    assert r.footer ==> Diagnosed(r, CountIf(!r.footer)).graph == r.graph;
  }

  lemma DetailLinesExactly(lines: seq<Line>)
    ensures ImportOf(Detail, lines).complete <==> AllDetailFine(lines) && HasFooter(lines) && NothingLacks(Taken(lines))
  {
    hide ImportOf, ReadLines, AllDetailFine, HasFooter, NothingLacks, DetailIs, MissingEndpoints;
    DetailVerdictOf(lines);
    DetailCleanExactly(lines);
    ReadShows(lines);
    MissingExact(ReadLines(Detail, lines).graph, Taken(lines));
  }

  /** A detail capture, by its own header, that was imported. */
  ghost predicate DetailCapture(limits: Limits, lines: seq<Line>) {
    Imported(limits, lines).Some? && BeginsAs(lines, Detail)
  }

  /**
   An import is one of a complete detail capture if and only if the file is well formed and within the
   limits; its counts are exact exactly if it is complete.
   */
  lemma DetailCompleteExactly(limits: Limits, lines: seq<Line>)
    ensures DetailCapture(limits, lines) && Imported(limits, lines).value.complete
       <==> DetailWellFormed(lines) && WithinLimits(limits, Detail, lines)
    ensures DetailCapture(limits, lines) ==> Imported(limits, lines).value.countsExact == Imported(limits, lines).value.complete
  {
    hide AllDetailFine, HasFooter, NothingLacks, WithinLimits, ReadLines, Finish;
    HeaderSays(lines);
    DetailLinesExactly(lines);
    hide HeaderOf, BeginsAs;
  }

  // -------------------------------------------------------------------- the number of diagnostics

  /** The line has a number and a time. */
  predicate Numbered(line: Line) {
    !line.Garbled? && line.no.Some? && line.no.value != 0 && line.ts.Some?
  }

  /** Number and time of the last numbered line, and whether a numbered footer has come. */
  datatype Place = Place(no: U64, ts: U64, ended: bool)

  function PlaceAfter(lines: seq<Line>): Place {
    if lines == [] then Place(0, 0, false)
    else
      var before, last := PlaceAfter(lines[..|lines| - 1]), lines[|lines| - 1];
      if Numbered(last) then Place(last.no.value, last.ts.value, before.ended || last.Footer?) else before
  }

  function If(b: bool): nat {
    if b then 1 else 0
  }

  /** What a footer can get wrong: coming again, not saying complete, and counting other than the lines. */
  function FooterCounts(ended: bool, n: nat, no: U64, complete: Option<bool>, badReason: bool, records: Option<U64>): nat {
    If(ended) + If(complete != Some(true))
    + if complete == Some(false) && badReason then 0 else If(records != Some(no) || no != n)
  }

  /** How many diagnostics the next line draws. */
  function LineCounts(lines: seq<Line>, line: Line): nat {
    var at, n := PlaceAfter(lines), |lines| + 1;
    If(!HeaderCountsItself(lines, line))
    + if !Numbered(line) then 1
      else
        If(line.no.value != n || line.no.value != Min(at.no + 1, U64_MAX)) + If(line.ts.value < at.ts) + If(at.ended)
        + if line.Footer? then FooterCounts(at.ended, n, line.no.value, line.complete, line.badReason, line.records)
          else If(!Fits(Taken(lines), Stamped(line.event, line.no.value, line.ts.value)))
  }

  function FileCounts(lines: seq<Line>): nat {
    if lines == [] then 0
    else FileCounts(lines[..|lines| - 1]) + LineCounts(lines[..|lines| - 1], lines[|lines| - 1])
  }

  ghost predicate StandsAt(r: Reader, lines: seq<Line>) {
    var at := PlaceAfter(lines);
    && DetailIs(r.graph, Taken(lines)) && r.records == |lines|
    && r.lastSeq == at.no && r.lastTs == at.ts && r.footer == at.ended
  }

  lemma CheckedCounts(r: Reader, no: U64, ts: U64)
    ensures Checked(r, no, ts)
         == r.(graph := r.graph.(diagnostics := r.graph.diagnostics
                 + If(no != r.records || no != Min(r.lastSeq + 1, U64_MAX)) + If(ts < r.lastTs) + If(r.footer)),
               lastSeq := no, lastTs := ts)
  {
  }

  lemma FooterCountsIt(r: Reader, no: U64, complete: Option<bool>, badReason: bool, records: Option<U64>)
    ensures ReadFooter(r, no, complete, badReason, records)
         == r.(graph := r.graph.(diagnostics := r.graph.diagnostics
                 + FooterCounts(r.footer, r.records, no, complete, badReason, records)),
               footer := true)
  {
  }

  lemma PlaceSnoc(lines: seq<Line>, line: Line)
    ensures PlaceAfter(lines + [line])
         == if Numbered(line) then Place(line.no.value, line.ts.value, PlaceAfter(lines).ended || line.Footer?)
            else PlaceAfter(lines)
  {
    assert (lines + [line])[..|lines|] == lines;
  }

  lemma LineCountsIt(r: Reader, lines: seq<Line>, line: Line)
    requires StandsAt(r, lines)
    ensures StandsAt(ReadLine(r, line), lines + [line])
    ensures ReadLine(r, line).graph.diagnostics == r.graph.diagnostics + LineCounts(lines, line)
  {
    hide DetailIs, Fits, Record, Checked, ReadFooter, HeaderFault, HeaderCountsItself, PlaceAfter, FooterCounts;
    PlaceSnoc(lines, line);
    TakenSnoc(lines, line);
    HeaderCounts(lines, line);
    var r1 := Diagnosed(r.(records := r.records + 1), HeaderFault(r.records + 1, line));
    DiagnosedIs(r.graph, r1.graph, Taken(lines));
    if Numbered(line) {
      var no, ts := line.no.value, line.ts.value;
      var c := Checked(r1, no, ts);
      CheckedCounts(r1, no, ts);
      CheckedIs(r1, lines, no, ts);
      if line.Footer? {
        FooterCountsIt(c, no, line.complete, line.badReason, line.records);
        DiagnosedIs(c.graph, ReadFooter(c, no, line.complete, line.badReason, line.records).graph, Taken(lines));
        assert Taken(lines) + [] == Taken(lines);
      } else {
        RecordStep(c.graph, Taken(lines), Stamped(line.event, no, ts));
      }
    } else {
      DiagnosedIs(r.graph, Diagnosed(r1, 1).graph, Taken(lines));
      assert Taken(lines) + [] == Taken(lines);
    }
  }

  lemma HeaderCounts(lines: seq<Line>, line: Line)
    ensures HeaderFault(|lines| + 1, line) == If(!HeaderCountsItself(lines, line))
  {
  }

  lemma NothingStands()
    ensures StandsAt(ReadLines(Detail, []), []) && ReadLines(Detail, []).graph.diagnostics == FileCounts([])
  {
    hide DetailIs;
    NothingShown();
  }

  /** Reading draws exactly the diagnostics that the lines deserve, one by one. */
  lemma {:induction false} DetailDiagnostics(lines: seq<Line>)
    ensures StandsAt(ReadLines(Detail, lines), lines)
    ensures ReadLines(Detail, lines).graph.diagnostics == FileCounts(lines)
  {
    if lines == [] {
      NothingStands();
    } else {
      hide ReadLine, LineCounts, StandsAt;
      var front, line := lines[..|lines| - 1], lines[|lines| - 1];
      assert lines == front + [line];
      assert ReadLines(Detail, lines) == ReadLine(ReadLines(Detail, front), line);
      assert FileCounts(lines) == FileCounts(front) + LineCounts(front, line);
      hide ReadLines, FileCounts;
      DetailDiagnostics(front);
      LineCountsIt(ReadLines(Detail, front), front, line);
    }
  }
}
