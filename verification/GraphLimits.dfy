/**
 The importer checks its limits after every line and refuses the whole file at the first one that
 is passed. As nothing that was imported is dropped again, a look at the end gives the same answer.
 */
module GraphLimits {
  import opened Numbers
  import opened Options
  import opened EvalGraph

  // ------------------------------------------------------------------ reading under limits

  lemma NoLinesWithin(limits: Limits, mode: Mode, lines: seq<Line>)
    ensures WithinLimits(limits, mode, lines[..0])
  {
  }

  lemma TooManyLines(limits: Limits, lines: seq<Line>)
    requires |lines| > limits.records
    ensures forall mode :: !WithinLimits(limits, mode, lines)
  {
  }

  lemma PrefixTooLarge(limits: Limits, mode: Mode, lines: seq<Line>, n: nat)
    requires 0 < n <= |lines| && TooLarge(limits, ReadLines(mode, lines[..n]).graph)
    ensures !WithinLimits(limits, mode, lines)
  {
  }

  lemma OneMoreRead(mode: Mode, lines: seq<Line>, n: nat)
    requires 0 < n <= |lines|
    ensures ReadLines(mode, lines[..n]) == ReadLine(ReadLines(mode, lines[..n - 1]), lines[n - 1])
  {
    hide ReadLine;
    assert lines[..n][..n - 1] == lines[..n - 1];
  }

  lemma OneMoreWithin(limits: Limits, mode: Mode, lines: seq<Line>, n: nat)
    requires 0 < n <= |lines| && n <= limits.records && WithinLimits(limits, mode, lines[..n - 1])
    requires !TooLarge(limits, ReadLines(mode, lines[..n]).graph)
    ensures WithinLimits(limits, mode, lines[..n])
  {
    hide ReadLines, TooLarge;
    forall k | 0 < k <= n ensures !TooLarge(limits, ReadLines(mode, lines[..n][..k]).graph) {
      assert lines[..n][..k] == lines[..k];
      if k < n {
        assert lines[..n - 1][..k] == lines[..k];
      }
    }
  }

  // ------------------------------------------------------------------------ nothing shrinks

  /** All that the limits are about is still there. */
  ghost predicate Grows(g: Graph, g': Graph) {
    && g.nodes.Keys <= g'.nodes.Keys && g.edges.Keys <= g'.edges.Keys && g.sites <= g'.sites && g.modules <= g'.modules
    && CountedSites(g) <= CountedSites(g') && g.log <= g'.log
  }

  lemma RelateGrows(g: Graph, invocation: U64, thunk: ThunkRef, relation: Relation, index: Option<U64>,
                    state: Option<int>, preview: Option<Preview>, no: U64, ts: U64)
    ensures Grows(g, Relate(g, invocation, thunk, relation, index, state, preview, no, ts))
  {
    hide WithPreview;
  }

  lemma CacheGrows(g: Graph, invocation: U64, result: U64)
    ensures Grows(g, CacheOutcome(g, invocation, result))
  {
    hide CacheName;
  }

  lemma CountRowGrows(g: Graph, execution: U64, key: SiteKey, counts: Counts)
    ensures Grows(g, CountRow(g, execution, key, counts))
  {
    hide AddCounts;
  }

  lemma DefineGrows(g: Graph, id: NodeId, node: Node)
    ensures Grows(g, Define(g, id, node))
  {
  }

  lemma InvokeGrows(g: Graph, invocation: U64, key: SiteKey, arity: U64, no: U64, ts: U64)
    ensures Grows(g, Invoke(g, invocation, key, arity, no, ts))
  {
    hide Define;
    var id := NodeId.Invocation(invocation);
    var node := Node(true, no, ts, Some(key), None, map["arity" := arity]);
    DefineGrows(g, id, node);
    assert Define(g, id, node).bodyStarts == g.bodyStarts by { DefineKeepsStarts(g, id, node); }
  }

  lemma DefineKeepsStarts(g: Graph, id: NodeId, node: Node)
    ensures Define(g, id, node).bodyStarts == g.bodyStarts
  {
  }

  lemma ExecuteGrows(g: Graph, execution: U64, mod: U64, workers: U64, status: Status, no: U64, ts: U64)
    ensures Grows(g, Execute(g, execution, mod, workers, status, no, ts))
  {
    hide ExecutionAccepted, Marked, EntryOf;
  }

  lemma DetailGrows(g: Graph, e: Event, no: U64, ts: U64)
    requires g.mode == Detail && IsDetail(e)
    ensures Grows(g, Record(g, e, no, ts))
  {
    hide Relate, CacheOutcome, CountRow, Define, Invoke, Execute, Grows;
    match e
    case AllocationEvent(thunk, words, born) =>
      var attributes: map<string, nat> := if born.Some? then map["words" := words, "born_ns" := born.value]
                                          else map["words" := words];
      DefineGrows(g, Thunk(thunk), Node(true, no, ts, None, None, attributes));
    case InvocationEvent(invocation, key, arity) => InvokeGrows(g, invocation, key, arity, no, ts);
    case ArgumentEvent(invocation, thunk, index, state, preview) =>
      RelateGrows(g, invocation, thunk, Argument, Some(index), Some(state), preview, no, ts);
    case ForceEvent(invocation, thunk, state) =>
      RelateGrows(g, invocation, thunk, Force, None, Some(state), None, no, ts);
    case CreatedEvent(invocation, thunk) => RelateGrows(g, invocation, thunk, Created, None, None, None, no, ts);
    case CacheEvent(invocation, result) => CacheGrows(g, invocation, result);
  }

  lemma NamesGrow(g: Graph, g': Graph)
    requires g'.nodes == g.nodes && g'.edges == g.edges && g.sites <= g'.sites && g.modules <= g'.modules
    requires g'.bodyStarts == g.bodyStarts && g'.counts == g.counts && g'.log == g.log
    ensures Grows(g, g')
  {
  }

  lemma RecordGrows(g: Graph, e: Event, no: U64, ts: U64)
    ensures Grows(g, Record(g, e, no, ts))
  {
    hide Record, CountRow, Execute, Grows;
    RunRecord(g, e, no, ts);
    if g.mode == Detail && IsDetail(e) {
      DetailGrows(g, e, no, ts);
    } else if e.CountsEvent? {
      CountRowGrows(g, e.execution, e.key, e.counts);
    } else if e.ExecutionEvent? {
      ExecuteGrows(g, e.execution, e.mod, e.workers, e.status, no, ts);
    } else {
      PlainRecord(g, e, no, ts);
      NamesGrow(g, Record(g, e, no, ts));
    }
  }

  lemma ReadLineGrows(r: Reader, line: Line)
    ensures Grows(r.graph, ReadLine(r, line).graph)
  {
    hide ReadLine, Record;
    var counted := ReadLineShape(r, line);
    if Readable(line) {
      RecordGrows(counted, line.event, line.no.value, line.ts.value);
    }
  }

  lemma {:induction false} ReadLinesGrow(mode: Mode, lines: seq<Line>, k: nat)
    requires k <= |lines|
    ensures Grows(ReadLines(mode, lines[..k]).graph, ReadLines(mode, lines).graph)
    decreases |lines| - k
  {
    hide ReadLine;
    if k == |lines| {
      assert lines[..k] == lines;
    } else {
      ReadLinesGrow(mode, lines, k + 1);
      OneMoreRead(mode, lines, k + 1);
      ReadLineGrows(ReadLines(mode, lines[..k]), lines[k]);
    }
  }

  lemma {:induction false} SubsetIsSmaller<T>(a: set<T>, b: set<T>)
    requires a <= b
    ensures |a| <= |b|
  {
    if a != {} {
      var x :| x in a;
      SubsetIsSmaller(a - {x}, b - {x});
    }
  }

  lemma TooLargeStays(limits: Limits, g: Graph, g': Graph)
    requires Grows(g, g') && TooLarge(limits, g)
    ensures TooLarge(limits, g')
  {
    SubsetIsSmaller(g.nodes.Keys, g'.nodes.Keys);
    SubsetIsSmaller(g.edges.Keys, g'.edges.Keys);
    SubsetIsSmaller(g.sites, g'.sites);
    SubsetIsSmaller(g.modules, g'.modules);
    SubsetIsSmaller(CountedSites(g), CountedSites(g'));
  }

  /** The first record is a valid header, of a capture of that mode. */
  predicate BeginsAs(lines: seq<Line>, mode: Mode) {
    && lines != [] && lines[0].Line?
    && match lines[0].event
       case Header(info) => info.Some? && info.value.mode == mode
       case _ => false
  }

  /** Some count of the graph is past its limit: nodes, sites and modules share one. */
  predicate Exceeds(limits: Limits, g: Graph) {
    || |g.nodes| > limits.nodes || |g.sites| > limits.nodes || |g.modules| > limits.nodes
    || |g.bodyStarts.Keys + g.counts.Keys| > limits.nodes
    || |g.edges| > limits.relations || |g.log| > limits.executions
  }

  lemma TooLargeIs(limits: Limits, g: Graph)
    ensures TooLarge(limits, g) <==> Exceeds(limits, g)
  {
  }

  lemma HeaderSays(lines: seq<Line>)
    ensures HeaderOf(lines).Some? ==> BeginsAs(lines, HeaderOf(lines).value.mode)
    ensures forall mode :: BeginsAs(lines, mode) ==> HeaderOf(lines).Some? && HeaderOf(lines).value.mode == mode
  {
  }

  /**
   A file is refused exactly if its header is not valid, it has too many lines, or its whole graph is
   too large: checking after every line refuses no file that a check at the end would let pass, and
   so no partial import is ever kept. Any other file is imported as its header says.
   */
  lemma RefusedExactly(limits: Limits, lines: seq<Line>)
    ensures Imported(limits, lines).None?
       <==> || (forall mode :: !BeginsAs(lines, mode)) || |lines| > limits.records
            || exists mode :: BeginsAs(lines, mode) && Exceeds(limits, ReadLines(mode, lines).graph)
    ensures forall mode :: Imported(limits, lines).Some? && BeginsAs(lines, mode) ==>
              Imported(limits, lines) == Some(ImportOf(mode, lines))
  {
    hide ReadLines, TooLarge, ImportOf, HeaderOf, BeginsAs, Exceeds;
    HeaderSays(lines);
    if HeaderOf(lines).Some? {
      var mode := HeaderOf(lines).value.mode;
      TooLargeIs(limits, ReadLines(mode, lines).graph);
      forall k | 0 < k <= |lines| && TooLarge(limits, ReadLines(mode, lines[..k]).graph)
        ensures TooLarge(limits, ReadLines(mode, lines).graph)
      {
        ReadLinesGrow(mode, lines, k);
        TooLargeStays(limits, ReadLines(mode, lines[..k]).graph, ReadLines(mode, lines).graph);
      }
      assert lines[..|lines|] == lines;
      if Exceeds(limits, ReadLines(mode, lines).graph) && |lines| > 0 {
        assert TooLarge(limits, ReadLines(mode, lines[..|lines|]).graph);
      }
      HeaderIsLine(lines);
    }
  }

  lemma HeaderIsLine(lines: seq<Line>)
    requires HeaderOf(lines).Some?
    ensures lines != []
  {
  }
}
