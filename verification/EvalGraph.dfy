/**
 Import of an evaluation-graph capture, one parsed record after the other. Records may
 mention nodes before they are defined. The importer never fails on a bad record: it counts a
 diagnostic, and only a capture without any is called complete.
 */
module EvalGraph {
  import opened Numbers
  import opened Options

  // --------------------------------------------------------------------------- the graph

  datatype NodeId = Thunk(id: U64) | Invocation(id: U64) | Unresolved(no: U64, identity: string)
  datatype SiteKey = SiteKey(mod: U64, site: U64)

  datatype Preview = Preview(text: string, truncated: bool)

  /** Attributes are a map: a name that is already there keeps its first value on a merge. */
  datatype Node = Node(defined: bool, no: U64, ts: U64, site: Option<SiteKey>, preview: Option<Preview>,
                       attributes: map<string, nat>)

  const PLACEHOLDER := Node(false, 0, 0, None, None, map[])

  datatype Relation = Argument | Force | Created
  datatype EdgeKey = EdgeKey(from: NodeId, to: NodeId, relation: Relation, index: Option<U64>, state: Option<int>)
  datatype Edge = Edge(count: nat, firstSeq: U64, lastSeq: U64, firstTs: U64, lastTs: U64)

  /** Source-site totals; with `overflow` set they are lower bounds. */
  datatype Counts = Counts(bodyStarts: U64, forceRequests: U64, created: U64,
                           cacheCompute: U64, cacheHit: U64, cacheWait: U64, overflow: bool)

  const NO_COUNTS := Counts(0, 0, 0, 0, 0, 0, false)

  datatype Execution = Execution(mod: U64, workers: U64, terminal: bool, sites: set<U64>)

  datatype Status = Start | Done | Poison | OutOfFuel | ResourcePending | OtherStatus

  /** An execution record that was taken; a detail capture does not number its executions. */
  datatype Logged = Logged(no: U64, ts: U64, workers: U64, status: Status, execution: Option<U64>, mod: Option<U64>)

  datatype Mode = Detail | CountsOnly

  datatype Graph = Graph(
    mode: Mode,
    nodes: map<NodeId, Node>,
    sites: set<SiteKey>,
    modules: set<U64>,
    bodyStarts: map<SiteKey, nat>,        // detail mode: the only count a site has
    counts: map<SiteKey, Counts>,         // counts mode
    total: Counts,
    executions: map<U64, Execution>,
    log: seq<Logged>,                     // execution records, as they came
    edges: map<EdgeKey, Edge>,
    invocations: nat,
    forceRequests: nat,
    cacheComputes: nat,
    cacheHits: nat,
    cacheWaits: nat,
    diagnostics: nat)

  function EmptyGraph(mode: Mode): Graph {
    Graph(mode, map[], {}, {}, map[], map[], NO_COUNTS, map[], [], map[], 0, 0, 0, 0, 0, 0)
  }

  // ------------------------------------------------------------------------- the records

  datatype ThunkRef = Allocated(thunk: U64) | External(identity: string)

  /** What a valid header says: the mode, and how many records it takes itself to be. */
  datatype HeaderInfo = HeaderInfo(mode: Mode, records: U64)

  /** A record whose fields could be read; anything else is `Malformed`. A header may be no valid one. */
  datatype Event =
    | Header(info: Option<HeaderInfo>)
    | ModuleEvent(mod: U64)
    | SiteEvent(key: SiteKey)
    | AllocationEvent(id: U64, words: U64, born: Option<nat>)
    | InvocationEvent(invocation: U64, key: SiteKey, arity: U64)
    | ArgumentEvent(invocation: U64, thunk: ThunkRef, index: U64, state: int, preview: Option<Preview>)
    | ForceEvent(invocation: U64, thunk: ThunkRef, state: int)
    | CreatedEvent(invocation: U64, thunk: ThunkRef)
    | CacheEvent(invocation: U64, result: U64)
    | CountsEvent(execution: U64, key: SiteKey, counts: Counts)
    | ExecutionEvent(execution: U64, mod: U64, workers: U64, status: Status)
    | Malformed

  function Diagnostic(g: Graph): Graph {
    g.(diagnostics := g.diagnostics + 1)
  }

  function NodeFor(t: ThunkRef, no: U64): NodeId {
    match t
    case Allocated(id) => Thunk(id)
    case External(identity) => Unresolved(no, identity)
  }

  /** A node that is mentioned exists from then on. */
  function WithPlaceholder(nodes: map<NodeId, Node>, id: NodeId): map<NodeId, Node> {
    if id in nodes then nodes else nodes[id := PLACEHOLDER]
  }

  predicate Defined(g: Graph, id: NodeId) {
    id in g.nodes && g.nodes[id].defined
  }

  /** A definition takes over what mentions have already put on the placeholder. */
  function Define(g: Graph, id: NodeId, node: Node): Graph {
    if Defined(g, id) then Diagnostic(g)
    else
      var node' := if id in g.nodes then
                     node.(preview := g.nodes[id].preview, attributes := node.attributes + g.nodes[id].attributes)
                   else node;
      g.(nodes := g.nodes[id := node'])
  }

  function Bumped(m: map<SiteKey, nat>, key: SiteKey): map<SiteKey, nat> {
    m[key := (if key in m then m[key] else 0) + 1]
  }

  function Allocate(g: Graph, thunk: U64, words: U64, born: Option<nat>, no: U64, ts: U64): Graph {
    var attributes: map<string, nat> := if born.Some? then map["words" := words, "born_ns" := born.value]
                                        else map["words" := words];
    Define(g, Thunk(thunk), Node(true, no, ts, None, None, attributes))
  }

  function Invoke(g: Graph, invocation: U64, key: SiteKey, arity: U64, no: U64, ts: U64): Graph {
    var id := NodeId.Invocation(invocation);
    var g' := Define(g, id, Node(true, no, ts, Some(key), None, map["arity" := arity]));
    if Defined(g, id) then g'
    else g'.(bodyStarts := Bumped(g'.bodyStarts, key), invocations := g'.invocations + 1)
  }

  function WithPreview(node: Node, preview: Option<Preview>): Node {
    if preview.Some? && node.preview.None? then node.(preview := preview) else node
  }

  function Traversed(edges: map<EdgeKey, Edge>, key: EdgeKey, no: U64, ts: U64): map<EdgeKey, Edge> {
    var e := if key in edges then edges[key] else Edge(0, no, no, ts, ts);
    edges[key := e.(count := e.count + 1, lastSeq := no, lastTs := ts)]
  }

  /** Both ends of a relation exist, and the first preview of the second one stays. */
  function Mentioned(nodes: map<NodeId, Node>, from: NodeId, to: NodeId, preview: Option<Preview>): map<NodeId, Node> {
    var nodes' := WithPlaceholder(WithPlaceholder(nodes, from), to);
    nodes'[to := WithPreview(nodes'[to], preview)]
  }

  function Relate(g: Graph, invocation: U64, thunk: ThunkRef, relation: Relation, index: Option<U64>, state: Option<int>,
                  preview: Option<Preview>, no: U64, ts: U64): Graph {
    var from, to := NodeId.Invocation(invocation), NodeFor(thunk, no);
    g.(nodes := Mentioned(g.nodes, from, to, preview),
       edges := Traversed(g.edges, EdgeKey(from, to, relation, index, state), no, ts),
       forceRequests := g.forceRequests + if relation == Force then 1 else 0)
  }

  function CacheName(result: U64): string {
    if result == 0 then "cache_compute" else if result == 1 then "cache_hit" else "cache_wait"
  }

  function CountedOnNode(nodes: map<NodeId, Node>, id: NodeId, name: string): map<NodeId, Node> {
    var nodes' := WithPlaceholder(nodes, id);
    var n := if name in nodes'[id].attributes then nodes'[id].attributes[name] else 0;
    nodes'[id := nodes'[id].(attributes := nodes'[id].attributes[name := n + 1])]
  }

  function CacheOutcome(g: Graph, invocation: U64, result: U64): Graph {
    if result > 2 then Diagnostic(g)
    else
      g.(nodes := CountedOnNode(g.nodes, NodeId.Invocation(invocation), CacheName(result)),
         cacheComputes := g.cacheComputes + if result == 0 then 1 else 0,
         cacheHits := g.cacheHits + if result == 1 then 1 else 0,
         cacheWaits := g.cacheWaits + if result == 2 then 1 else 0)
  }

  /** Never wraps; a sum that does not fit raises the flag. */
  function AddCounts(to: Counts, from: Counts): Counts {
    Counts(SatAdd(to.bodyStarts, from.bodyStarts), SatAdd(to.forceRequests, from.forceRequests),
           SatAdd(to.created, from.created), SatAdd(to.cacheCompute, from.cacheCompute),
           SatAdd(to.cacheHit, from.cacheHit), SatAdd(to.cacheWait, from.cacheWait),
           to.overflow || from.overflow
           || to.bodyStarts + from.bodyStarts > U64_MAX || to.forceRequests + from.forceRequests > U64_MAX
           || to.created + from.created > U64_MAX || to.cacheCompute + from.cacheCompute > U64_MAX
           || to.cacheHit + from.cacheHit > U64_MAX || to.cacheWait + from.cacheWait > U64_MAX)
  }

  /** A counts row is taken if its site is known, its execution runs, and it is the first for the site. */
  predicate RowAccepted(g: Graph, execution: U64, key: SiteKey) {
    && g.mode == CountsOnly && key in g.sites && execution in g.executions
    && g.executions[execution].mod == key.mod && !g.executions[execution].terminal
    && key.site !in g.executions[execution].sites
  }

  function CountRow(g: Graph, execution: U64, key: SiteKey, counts: Counts): Graph {
    if !RowAccepted(g, execution, key) then Diagnostic(g)
    else
      var run := g.executions[execution];
      g.(executions := g.executions[execution := run.(sites := run.sites + {key.site})],
         counts := g.counts[key := AddCounts(if key in g.counts then g.counts[key] else NO_COUNTS, counts)],
         total := AddCounts(g.total, counts))
  }

  predicate Ends(status: Status) {
    status == Done || status == Poison || status == OutOfFuel || status == ResourcePending
  }

  /** In a counts capture a start must be new, and an end must match a start that is still open. */
  predicate ExecutionAccepted(g: Graph, execution: U64, mod: U64, workers: U64, status: Status) {
    || g.mode == Detail
    || (status == Start && execution !in g.executions)
    || (Ends(status) && execution in g.executions && !g.executions[execution].terminal
        && g.executions[execution].mod == mod && g.executions[execution].workers == workers)
  }

  function EntryOf(mode: Mode, execution: U64, mod: U64, workers: U64, status: Status, no: U64, ts: U64): Logged {
    if mode == Detail then Logged(no, ts, workers, status, None, None)
    else Logged(no, ts, workers, status, Some(execution), Some(mod))
  }

  /** An accepted start opens an execution, an accepted end closes it; a detail capture keeps no such book. */
  function Marked(g: Graph, execution: U64, mod: U64, workers: U64, status: Status): map<U64, Execution>
    requires ExecutionAccepted(g, execution, mod, workers, status)
  {
    if g.mode == Detail then g.executions
    else if status == Start then g.executions[execution := Execution(mod, workers, false, {})]
    else g.executions[execution := g.executions[execution].(terminal := true)]
  }

  function Execute(g: Graph, execution: U64, mod: U64, workers: U64, status: Status, no: U64, ts: U64): Graph {
    if !ExecutionAccepted(g, execution, mod, workers, status) then Diagnostic(g)
    else g.(executions := Marked(g, execution, mod, workers, status),
            log := g.log + [EntryOf(g.mode, execution, mod, workers, status, no, ts)])
  }

  predicate IsDetail(e: Event) {
    e.AllocationEvent? || e.InvocationEvent? || e.ArgumentEvent? || e.ForceEvent? || e.CreatedEvent? || e.CacheEvent?
  }

  /** One record; an error counts one diagnostic and changes nothing else. */
  function Record(g: Graph, e: Event, no: U64, ts: U64): Graph {
    if g.mode == CountsOnly && IsDetail(e) then Diagnostic(g)
    else
      match e
      case Header(_) => if no == 1 then g else Diagnostic(g)
      case ModuleEvent(m) => if m in g.modules then Diagnostic(g) else g.(modules := g.modules + {m})
      case SiteEvent(key) => if key in g.sites then Diagnostic(g) else g.(sites := g.sites + {key})
      case AllocationEvent(thunk, words, born) => Allocate(g, thunk, words, born, no, ts)
      case InvocationEvent(invocation, key, arity) => Invoke(g, invocation, key, arity, no, ts)
      case ArgumentEvent(invocation, thunk, index, state, preview) =>
        Relate(g, invocation, thunk, Argument, Some(index), Some(state), preview, no, ts)
      case ForceEvent(invocation, thunk, state) => Relate(g, invocation, thunk, Force, None, Some(state), None, no, ts)
      case CreatedEvent(invocation, thunk) => Relate(g, invocation, thunk, Created, None, None, None, no, ts)
      case CacheEvent(invocation, result) => CacheOutcome(g, invocation, result)
      case CountsEvent(execution, key, counts) => CountRow(g, execution, key, counts)
      case ExecutionEvent(execution, mod, workers, status) => Execute(g, execution, mod, workers, status, no, ts)
      case Malformed => Diagnostic(g)
  }

  /** A record that names a module or a site, or is no more than a fault. */
  predicate IsPlain(g: Graph, e: Event) {
    !e.CountsEvent? && !e.ExecutionEvent? && (g.mode == CountsOnly || !IsDetail(e))
  }

  /** A plain record adds a name, or nothing, or a diagnostic. */
  lemma PlainRecord(g: Graph, e: Event, no: U64, ts: U64)
    requires IsPlain(g, e)
    ensures Record(g, e, no, ts)
         == if e.ModuleEvent? && e.mod !in g.modules then g.(modules := g.modules + {e.mod})
            else if e.SiteEvent? && e.key !in g.sites then g.(sites := g.sites + {e.key})
            else if e.Header? && no == 1 then g
            else Diagnostic(g)
  {
    hide Allocate, Invoke, Relate, CacheOutcome, CountRow, Execute, Diagnostic;
  }

  lemma RunRecord(g: Graph, e: Event, no: U64, ts: U64)
    ensures e.CountsEvent? ==> Record(g, e, no, ts) == CountRow(g, e.execution, e.key, e.counts)
    ensures e.ExecutionEvent? ==> Record(g, e, no, ts) == Execute(g, e.execution, e.mod, e.workers, e.status, no, ts)
  {
    hide Allocate, Invoke, Relate, CacheOutcome, CountRow, Execute;
  }

  // -------------------------------------------------------------------------- the stream

  /**
   One line of the file: unreadable JSON, a footer, or a record; `None` is a bad value. A footer
   that is not complete may carry a reason, which must be readable.
   */
  datatype Line =
    | Garbled
    | Footer(no: Option<U64>, ts: Option<U64>, complete: Option<bool>, badReason: bool, records: Option<U64>)
    | Line(no: Option<U64>, ts: Option<U64>, event: Event)

  datatype Reader = Reader(graph: Graph, records: nat, lastSeq: U64, lastTs: U64, footer: bool)

  function Diagnosed(r: Reader, n: nat): Reader {
    r.(graph := r.graph.(diagnostics := r.graph.diagnostics + n))
  }

  function CountIf(b: bool): nat {
    if b then 1 else 0
  }

  /** Order checks that every readable line goes through. */
  function Checked(r: Reader, no: U64, ts: U64): Reader {
    Diagnosed(r, OrderFaults(r.records, r.lastSeq, r.lastTs, r.footer, no, ts)).(lastSeq := no, lastTs := ts)
  }

  function OrderFaults(records: nat, lastSeq: U64, lastTs: U64, footer: bool, no: U64, ts: U64): nat {
    CountIf(no != SatAdd(lastSeq, 1) || no != records) + CountIf(ts < lastTs) + CountIf(footer)
  }

  function ReadFooter(r: Reader, no: U64, complete: Option<bool>, badReason: bool, records: Option<U64>): Reader {
    Diagnosed(r, FooterFaults(r.footer, r.records, no, complete, badReason, records)).(footer := true)
  }

  function FooterFaults(footer: bool, read: nat, no: U64, complete: Option<bool>, badReason: bool, records: Option<U64>): nat {
    CountIf(footer) + CountIf(complete != Some(true))
    + if complete == Some(false) && badReason then 0
      else CountIf(records.None? || records.value != read || records.value != no)
  }

  /** A header on the first line counts itself as the one record. */
  function HeaderFault(records: nat, line: Line): nat {
    CountIf(records == 1 && line.Line? && line.event.Header? && line.event.info.Some? && line.event.info.value.records != 1)
  }

  /** What a numbered line does behind the order checks. */
  function ReadNumbered(r: Reader, line: Line, no: U64, ts: U64): Reader
    requires !line.Garbled?
  {
    var c := Checked(r, no, ts);
    if line.Footer? then ReadFooter(c, no, line.complete, line.badReason, line.records)
    else c.(graph := Record(c.graph, line.event, no, ts))
  }

  function ReadLine(r0: Reader, line: Line): Reader {
    var r := Diagnosed(r0.(records := r0.records + 1), HeaderFault(r0.records + 1, line));
    if line.Garbled? then Diagnosed(r, 1)
    else if line.no.None? || line.no.value == 0 || line.ts.None? then Diagnosed(r, 1)
    else ReadNumbered(r, line, line.no.value, line.ts.value)
  }

  /** A record whose envelope could be read. */
  predicate Readable(line: Line) {
    line.Line? && line.no.Some? && line.no.value != 0 && line.ts.Some?
  }

  /** The checks of a line count diagnostics and do nothing else to the graph. */
  ghost predicate OnlyDiagnosed(g: Graph, g': Graph) {
    g' == g.(diagnostics := g'.diagnostics) && g'.diagnostics >= g.diagnostics
  }

  lemma CheckedDiagnoses(r: Reader, no: U64, ts: U64)
    ensures OnlyDiagnosed(r.graph, Checked(r, no, ts).graph)
  {
  }

  lemma FooterDiagnoses(r: Reader, no: U64, complete: Option<bool>, badReason: bool, records: Option<U64>)
    ensures OnlyDiagnosed(r.graph, ReadFooter(r, no, complete, badReason, records).graph)
  {
  }

  /** Whatever the line is, first diagnostics are counted, then a readable record is applied. */
  lemma ReadLineShape(r: Reader, line: Line) returns (counted: Graph)
    ensures OnlyDiagnosed(r.graph, counted)
    ensures ReadLine(r, line).graph
         == (if Readable(line) then Record(counted, line.event, line.no.value, line.ts.value) else counted)
  {
    hide Record, HeaderFault, Checked, ReadFooter;
    var r1 := Diagnosed(r.(records := r.records + 1), HeaderFault(r.records + 1, line));
    if line.Garbled? || line.no.None? || line.no.value == 0 || line.ts.None? {
      counted := Diagnosed(r1, 1).graph;
    } else {
      var no, c := line.no.value, Checked(r1, line.no.value, line.ts.value);
      CheckedDiagnoses(r1, no, line.ts.value);
      if line.Footer? {
        FooterDiagnoses(c, no, line.complete, line.badReason, line.records);
        counted := ReadFooter(c, no, line.complete, line.badReason, line.records).graph;
      } else {
        counted := c.graph;
      }
    }
  }

  function ReadLines(mode: Mode, lines: seq<Line>): Reader {
    if lines == [] then Reader(EmptyGraph(mode), 0, 0, 0, false)
    else ReadLine(ReadLines(mode, lines[..|lines| - 1]), lines[|lines| - 1])
  }

  // -------------------------------------------------------------------------- the verdict

  function SitesOf(sites: set<SiteKey>, mod: U64): set<U64> {
    set k | k in sites && k.mod == mod :: k.site
  }

  /** Diagnostics for one execution of a counts capture. */
  function ExecutionFaults(g: Graph, run: Execution): nat {
    CountIf(!run.terminal) + CountIf(run.mod !in g.modules) + CountIf(|run.sites| != |SitesOf(g.sites, run.mod)|)
  }

  function AllFaults(g: Graph, runs: map<U64, Execution>): nat
    decreases runs.Keys
  {
    if runs == map[] then 0
    else
      var e := LeastKey(runs.Keys);
      ExecutionFaults(g, runs[e]) + AllFaults(g, runs - {e})
  }

  ghost predicate IsLeast(keys: set<U64>, k: U64) {
    k in keys && forall j :: j in keys ==> k <= j
  }

  /** The executions are visited in order of their number. */
  function LeastKey(keys: set<U64>): (k: U64)
    requires keys != {}
    ensures IsLeast(keys, k)
  {
    LeastExists(keys);
    var k :| k in keys && forall j :: j in keys ==> k <= j;
    k
  }

  lemma {:induction false} LeastExists(keys: set<U64>)
    requires keys != {}
    ensures exists k :: IsLeast(keys, k)
    decreases keys
  {
    var a :| a in keys;
    if b :| b in keys && b < a {
      assert b in keys - {a};
      LeastExists(keys - {a});
      var m :| IsLeast(keys - {a}, m);
      forall j | j in keys ensures m <= j {
        assert j == a || j in keys - {a};
      }
      assert IsLeast(keys, m);
    } else {
      assert IsLeast(keys, a);
    }
  }

  function CountedSites(g: Graph): set<SiteKey> {
    g.bodyStarts.Keys + g.counts.Keys
  }

  function MissingModules(g: Graph): set<U64> {
    set k | k in g.sites + CountedSites(g) && k.mod !in g.modules :: k.mod
  }

  function MissingSites(g: Graph): set<SiteKey> {
    CountedSites(g) - g.sites
  }

  function MissingNodes(g: Graph): set<NodeId> {
    set id | id in g.nodes && !g.nodes[id].defined
  }

  function MissingEndpoints(g: Graph): nat {
    |MissingModules(g)| + |MissingSites(g)| + |MissingNodes(g)|
  }

  function Finish(g: Graph): Graph {
    g.(diagnostics := g.diagnostics + (if g.mode == CountsOnly then AllFaults(g, g.executions) else 0) + MissingEndpoints(g),
       invocations := if g.mode == CountsOnly then g.total.bodyStarts else g.invocations,
       forceRequests := if g.mode == CountsOnly then g.total.forceRequests else g.forceRequests,
       cacheComputes := if g.mode == CountsOnly then g.total.cacheCompute else g.cacheComputes,
       cacheHits := if g.mode == CountsOnly then g.total.cacheHit else g.cacheHits,
       cacheWaits := if g.mode == CountsOnly then g.total.cacheWait else g.cacheWaits)
  }

  /** The imported graph and its two verdicts. */
  datatype Import = Import(graph: Graph, complete: bool, countsExact: bool)

  function ImportOf(mode: Mode, lines: seq<Line>): Import {
    var r := ReadLines(mode, lines);
    var g := Finish(Diagnosed(r, CountIf(!r.footer)).graph);
    var complete := r.footer && g.diagnostics == 0;
    Import(g, complete, complete && !(mode == CountsOnly && g.total.overflow))
  }

  /** Says what the file is: its first record, if that is a valid header. */
  function HeaderOf(lines: seq<Line>): Option<HeaderInfo> {
    if lines != [] && lines[0].Line? && lines[0].event.Header? then lines[0].event.info else None
  }

  datatype Limits = Limits(records: nat, nodes: nat, relations: nat, executions: nat)

  predicate TooLarge(limits: Limits, g: Graph) {
    || |g.nodes| > limits.nodes || |g.edges| > limits.relations || |g.sites| > limits.nodes || |g.modules| > limits.nodes
    || |CountedSites(g)| > limits.nodes || |g.log| > limits.executions
  }

  /** No line of the file is past the record limit, and after none is the graph past the others. */
  ghost predicate WithinLimits(limits: Limits, mode: Mode, lines: seq<Line>) {
    && |lines| <= limits.records
    && forall k :: 0 < k <= |lines| ==> !TooLarge(limits, ReadLines(mode, lines[..k]).graph)
  }

  /** The import of a whole file; it is refused without a valid header and past any limit. */
  ghost function Imported(limits: Limits, lines: seq<Line>): Option<Import> {
    match HeaderOf(lines)
    case None => None
    case Some(h) => if WithinLimits(limits, h.mode, lines) then Some(ImportOf(h.mode, lines)) else None
  }
}
