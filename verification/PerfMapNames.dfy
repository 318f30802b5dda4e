/**
 From the perf map to the registry: the entries a runtime prints are read by the tailer, noted as
 symbols, published with their regions, and found again by address.
 */
module PerfMapNames {
  import opened Numbers
  import opened Registry
  import opened JitImages
  import opened JitTables
  import opened JitPublish
  import PerfMap
  import PerfMapTailer

  type Line = PerfMap.Entry

  /** An entry of no size names one byte; none reaches past the last address. */
  function LineEnd(e: Line): (end: U64)
    ensures end == EndOf(e.start, e.size)
  {
    var size := if e.size == 0 then 1 else e.size;
    if e.start + size > 0xFFFF_FFFF_FFFF_FFFF then 0xFFFF_FFFF_FFFF_FFFF else e.start + size
  }

  predicate LineCovers(e: Line, x: U64) {
    e.start <= x < LineEnd(e)
  }

  /** The entries that the symbol steps of a run note, in order. */
  function Fed(steps: seq<Step>): seq<Line> {
    if steps == [] then []
    else
      var last := steps[|steps| - 1];
      Fed(steps[..|steps| - 1]) + if last.SymbolStep? then [PerfMap.Entry(last.start, last.size, last.name)] else []
  }

  function Noted(es: seq<Line>): Symbols {
    if es == [] then map[]
    else
      var e := es[|es| - 1];
      Noted(es[..|es| - 1])[e.start := Entry(LineEnd(e), e.name)]
  }

  /** No two entries overlap. */
  ghost predicate Apart(es: seq<Line>) {
    forall i, k :: 0 <= i < k < |es| ==> LineEnd(es[i]) <= es[k].start || LineEnd(es[k]) <= es[i].start
  }

  /** No image that others load takes the base of a clean region. */
  ghost predicate OthersKeepOff(steps: seq<Step>) {
    steps != [] ==>
      && OthersKeepOff(steps[..|steps| - 1])
      && (steps[|steps| - 1].OtherImageStep? ==> Harmless(Run(steps[..|steps| - 1]), steps[|steps| - 1]))
  }

  // ------------------------------------------------------------------- the symbols of the entries

  lemma {:induction false} NotedFrom(es: seq<Line>, k: U64)
    requires k in Noted(es)
    ensures exists e :: e in es && e.start == k && Noted(es)[k] == Entry(LineEnd(e), e.name)
  {
    var e := es[|es| - 1];
    if e.start != k {
      NotedFrom(es[..|es| - 1], k);
    }
  }

  lemma {:induction false} NotedHasKey(es: seq<Line>, e: Line)
    requires e in es
    ensures e.start in Noted(es)
  {
    if e != es[|es| - 1] {
      NotedHasKey(es[..|es| - 1], e);
    }
  }

  lemma ApartMembers(es: seq<Line>, d: Line, e: Line)
    requires Apart(es) && d in es && e in es && d != e
    ensures LineEnd(d) <= e.start || LineEnd(e) <= d.start
  {
    hide LineEnd;
    var i, k :| 0 <= i < |es| && 0 <= k < |es| && es[i] == d && es[k] == e;
  }

  lemma NotedDisjoint(es: seq<Line>)
    requires Apart(es)
    ensures SymbolsDisjoint(Noted(es))
  {
    forall s, t | s in Noted(es) && t in Noted(es) && s < t ensures Noted(es)[s].end <= t {
      NotedFrom(es, s);
      NotedFrom(es, t);
      var d, e :| d in es && e in es && d.start == s && e.start == t && Noted(es)[s].end == LineEnd(d);
      ApartMembers(es, d, e);
    }
  }

  /** Among entries that do not overlap, the symbol that covers an address is the entry that does. */
  lemma NotedCovers(es: seq<Line>, x: U64)
    requires Apart(es)
    ensures forall k :: Covers(Noted(es), k, x) ==>
              exists e :: e in es && LineCovers(e, x) && SymbolAt(Noted(es), k) == Symbol(e.start, LineEnd(e), e.name)
    ensures forall e :: e in es && LineCovers(e, x) ==>
              e.start in Noted(es) && Noted(es)[e.start] == Entry(LineEnd(e), e.name)
  {
    forall k | Covers(Noted(es), k, x)
      ensures exists e :: e in es && LineCovers(e, x) && SymbolAt(Noted(es), k) == Symbol(e.start, LineEnd(e), e.name)
    {
      NotedFrom(es, k);
    }
    forall e | e in es && LineCovers(e, x)
      ensures e.start in Noted(es) && Noted(es)[e.start] == Entry(LineEnd(e), e.name)
    {
      NotedHasKey(es, e);
      NotedFrom(es, e.start);
      var d :| d in es && d.start == e.start && Noted(es)[e.start] == Entry(LineEnd(d), d.name);
      if d != e { ApartMembers(es, d, e); }
    }
  }

  lemma NextIsOrderly(es: seq<Line>, e: Line)
    requires Apart(es + [e])
    ensures Apart(es) && Orderly(Noted(es), e.start, e.size, e.name)
  {
    hide SymbolsDisjoint, Apart;
    var all := es + [e];
    assert all[..|es|] == es && all[|es|] == e;
    assert Apart(es) by { FrontApart(es, e); }
    NotedDisjoint(all);
    if e.start in Noted(es) {
      NotedFrom(es, e.start);
      var d :| d in es && d.start == e.start && Noted(es)[e.start] == Entry(LineEnd(d), d.name);
      if d != e { ApartMembers(all, d, e); }
    }
  }

  lemma FrontApart(es: seq<Line>, e: Line)
    requires Apart(es + [e])
    ensures Apart(es)
  {
    hide LineEnd;
    assert forall i :: 0 <= i < |es| ==> (es + [e])[i] == es[i];
  }

  lemma NotedNext(es: seq<Line>, e: Line)
    ensures Noted(es + [e]) == Noted(es)[e.start := Entry(LineEnd(e), e.name)]
  {
    assert (es + [e])[..|es|] == es;
  }

  /** Entries that do not overlap arrive in an orderly way, whatever else happens in between. */
  lemma {:induction false} ApartIsOrderly(steps: seq<Step>)
    requires Apart(Fed(steps)) && OthersKeepOff(steps)
    ensures OrderlyRun(steps) && Run(steps).jit.symbols == Noted(Fed(steps))
  {
    hide Apart, Orderly, Performed, HidesNoHead, Current;
    if steps != [] {
      var front, last := steps[..|steps| - 1], steps[|steps| - 1];
      if last.SymbolStep? {
        var e := PerfMap.Entry(last.start, last.size, last.name);
        NextIsOrderly(Fed(front), e);
        NotedNext(Fed(front), e);
      } else {
        assert Fed(steps) == Fed(front);
      }
      ApartIsOrderly(front);
      OrderlyIsHarmless(front);
      RunInv(front);
      StepSymbols(Run(front), last);
    }
  }

  // --------------------------------------------------------------------------------- the theorem

  /** The registry answers for an address of the region with the entry that covers it, or with the bare region if none does. */
  ghost predicate AnswersWithLine(w: World, s: U64, x: U64, es: seq<Line>)
    requires s in w.jit.regions
  {
    match LookupIn(w.binaries, x)
    case Named(i, symbol) =>
      i < |w.binaries| && w.binaries[i] == Current(w.jit, s)
      && exists e :: e in es && LineCovers(e, x) && symbol == Symbol(e.start, LineEnd(e), e.name)
    case Unnamed(i, svma) =>
      i < |w.binaries| && w.binaries[i] == Current(w.jit, s) && forall e :: e in es ==> !LineCovers(e, x)
    case Unmapped => false
  }

  lemma FedLinesAreFound(steps: seq<Step>, s: U64, x: U64)
    requires Apart(Fed(steps)) && OthersKeepOff(steps) && InCleanRegion(Run(steps), s, x)
    requires forall base :: base in OtherBases(steps) ==> !(s < base <= x)
    ensures AnswersWithLine(Run(steps), s, x, Fed(steps))
  {
    hide Run, Fed, Apart, OthersKeepOff, OrderlyRun, OtherBases, LookupIn, Current, LineEnd, Noted;
    ApartIsOrderly(steps);
    LookupIsExact(steps, s, x);
    NotedCovers(Fed(steps), x);
    forall e | e in Fed(steps) && LineCovers(e, x) ensures Covers(Noted(Fed(steps)), e.start, x) {
    }
  }

  /**
   A runtime prints entries that do not overlap, and the file is seen in whatever pieces. Once it is
   all there and what was read has been noted, in whatever order with mappings, adoptions,
   publications and other images, an address of a clean region is answered with the printed entry
   that covers it.
   */
  lemma PrintedLinesAreFound(
      entries: seq<Line>, prefix: bool, files: seq<string>, steps: seq<Step>, s: U64, x: U64)
    requires (forall e :: e in entries ==> PerfMap.IsName(e.name)) && Apart(entries)
    requires PerfMapTailer.AppendOnly(files) && files != []
    requires files[|files| - 1] == PerfMapTailer.PrintFile(entries, prefix)
    requires Fed(steps) == PerfMapTailer.Tail(files).entries && OthersKeepOff(steps)
    requires InCleanRegion(Run(steps), s, x)
    requires forall base :: base in OtherBases(steps) ==> !(s < base <= x)
    ensures AnswersWithLine(Run(steps), s, x, entries)
  {
    hide Run, Fed, Apart, OthersKeepOff, OtherBases, AnswersWithLine, InCleanRegion;
    PerfMapTailer.TailReadsWhatWasWritten(entries, prefix, files);
    FedLinesAreFound(steps, s, x);
  }

  // ------------------------------------------------------------------------------------ one poll

  function Feed(es: seq<Line>): seq<Step> {
    if es == [] then [] else Feed(es[..|es| - 1]) + [SymbolStep(es[|es| - 1].start, es[|es| - 1].size, es[|es| - 1].name)]
  }

  /** `poll_jit`: note what was read, look for mappings again, adopt what has no region, publish. */
  function Polled(es: seq<Line>, maps: seq<Step>): seq<Step> {
    Feed(es) + maps + [AdoptStep, PublishStep]
  }

  lemma {:induction false} FeedFeeds(before: seq<Step>, es: seq<Line>)
    ensures Fed(before + Feed(es)) == Fed(before) + es && OtherBases(before + Feed(es)) == OtherBases(before)
    ensures OthersKeepOff(before + Feed(es)) <==> OthersKeepOff(before)
  {
    hide Fed, OtherBases, OthersKeepOff;
    if es == [] {
      assert before + Feed(es) == before;
    } else {
      var front, e := es[..|es| - 1], es[|es| - 1];
      var step := SymbolStep(e.start, e.size, e.name);
      assert Feed(es) == Feed(front) + [step] && es == front + [e];
      hide Feed;
      FeedFeeds(before, front);
      assert before + Feed(es) == (before + Feed(front)) + [step];
      OneMoreStep(before + Feed(front), step);
    }
  }

  lemma OneMoreStep(steps: seq<Step>, step: Step)
    requires !step.OtherImageStep?
    ensures Fed(steps + [step])
         == Fed(steps) + if step.SymbolStep? then [PerfMap.Entry(step.start, step.size, step.name)] else []
    ensures OtherBases(steps + [step]) == OtherBases(steps) && (OthersKeepOff(steps + [step]) <==> OthersKeepOff(steps))
  {
    hide Harmless, Run;
    assert (steps + [step])[..|steps|] == steps;
  }

  /** Steps that neither note a symbol nor load another image. */
  lemma {:induction false} QuietSteps(before: seq<Step>, more: seq<Step>)
    requires forall m :: m in more ==> !m.SymbolStep? && !m.OtherImageStep?
    ensures Fed(before + more) == Fed(before) && OtherBases(before + more) == OtherBases(before)
    ensures OthersKeepOff(before + more) <==> OthersKeepOff(before)
  {
    hide Fed, OtherBases, OthersKeepOff;
    if more == [] {
      assert before + more == before;
    } else {
      var front, step := more[..|more| - 1], more[|more| - 1];
      QuietSteps(before, front);
      assert before + more == (before + front) + [step];
      OneMoreStep(before + front, step);
    }
  }

  lemma PolledRun(before: seq<Step>, es: seq<Line>, maps: seq<Step>)
    requires Fed(before) == [] && OthersKeepOff(before) && Apart(es) && forall m :: m in maps ==> m.MapStep?
    ensures var steps := before + Polled(es, maps);
            && Fed(steps) == es && OtherBases(steps) == OtherBases(before) && OthersKeepOff(steps)
            && Run(steps).jit.dirty == {}
            && forall e :: e in es && e.start < LineEnd(e) ==> Touched(Run(steps).jit.regions, e.start, LineEnd(e))
  {
    hide Fed, OtherBases, OthersKeepOff, Apart, Run, Feed, Touched, AdoptOrphans, PublishAll, DirtyImages, LineEnd;
    var mid := (before + Feed(es)) + maps;
    var all := mid + [AdoptStep] + [PublishStep];
    assert before + Polled(es, maps) == all;
    FeedFeeds(before, es);
    QuietSteps(before + Feed(es), maps);
    assert [] + es == es;
    OneMoreStep(mid, AdoptStep);
    OneMoreStep(mid + [AdoptStep], PublishStep);
    RunMore(mid, AdoptStep);
    RunMore(mid + [AdoptStep], PublishStep);
    ApartIsOrderly(mid);
    OrderlyIsHarmless(mid);
    RunInv(mid);
    AdoptOrphansInv(Run(mid).jit);
    forall e | e in es && e.start < LineEnd(e) ensures Touched(Run(all).jit.regions, e.start, LineEnd(e)) {
      NotedCovers(es, e.start);
      assert LineCovers(e, e.start);
    }
  }

  /**
   After one poll of a whole file every region is clean, every entry with a range meets a region, and
   every address of a region is answered with the printed entry that covers it.
   */
  lemma PollFindsPrintedLines(
      before: seq<Step>, entries: seq<Line>, prefix: bool, files: seq<string>, maps: seq<Step>, s: U64, x: U64)
    requires (forall e :: e in entries ==> PerfMap.IsName(e.name)) && Apart(entries)
    requires PerfMapTailer.AppendOnly(files) && files != []
    requires files[|files| - 1] == PerfMapTailer.PrintFile(entries, prefix)
    requires Fed(before) == [] && OthersKeepOff(before) && forall m :: m in maps ==> m.MapStep?
    ensures var w := Run(before + Polled(PerfMapTailer.Tail(files).entries, maps));
            && w.jit.dirty == {}
            && (forall e :: e in entries && e.start < LineEnd(e) ==> Touched(w.jit.regions, e.start, LineEnd(e)))
            && (s in w.jit.regions && s <= x < w.jit.regions[s]
                && (forall base :: base in OtherBases(before) ==> !(s < base <= x))
                ==> AnswersWithLine(w, s, x, entries))
  {
    hide Run, Fed, Apart, OthersKeepOff, OtherBases, AnswersWithLine, Polled, Touched, LineEnd;
    PerfMapTailer.TailReadsWhatWasWritten(entries, prefix, files);
    PolledRun(before, entries, maps);
    var steps := before + Polled(entries, maps);
    var w := Run(steps);
    if s in w.jit.regions && s <= x < w.jit.regions[s] && forall base :: base in OtherBases(before) ==> !(s < base <= x) {
      FedLinesAreFound(steps, s, x);
    }
  }
}
