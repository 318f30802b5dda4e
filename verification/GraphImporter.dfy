/** The importer as an object: it reads one line after the other and updates its maps in place. */
module GraphImporter {
  import opened Numbers
  import opened Options
  import G = EvalGraph
  import opened GraphLimits
  import opened GraphQueries

  class Importer {
    const limits: G.Limits
    var mode: G.Mode
    var nodes: map<G.NodeId, G.Node>
    var sites: set<G.SiteKey>
    var modules: set<U64>
    var bodyStarts: map<G.SiteKey, nat>
    var counts: map<G.SiteKey, G.Counts>
    var total: G.Counts
    var executions: map<U64, G.Execution>
    var log: seq<G.Logged>
    var edges: map<G.EdgeKey, G.Edge>
    var invocations: nat
    var forceRequests: nat
    var cacheComputes: nat
    var cacheHits: nat
    var cacheWaits: nat
    var diagnostics: nat
    var records: nat
    var lastSeq: U64
    var lastTs: U64
    var footer: bool
    var adjacency: map<G.NodeId, seq<G.EdgeKey>>

    /** Until the header says otherwise the capture is taken for a detailed one. */
    constructor (limits: G.Limits)
      ensures this.limits == limits && Progress() == G.ReadLines(G.Detail, [])
    {
      this.limits, mode := limits, G.Detail;
      nodes, sites, modules, bodyStarts, counts, total := map[], {}, {}, map[], map[], G.NO_COUNTS;
      executions, log, edges := map[], [], map[];
      invocations, forceRequests, cacheComputes, cacheHits, cacheWaits, diagnostics := 0, 0, 0, 0, 0, 0;
      records, lastSeq, lastTs, footer := 0, 0, 0, false;
      adjacency := map[];
    }

    /** The graph these fields stand for. */
    function Value(): G.Graph
      reads this
    {
      G.Graph(mode, nodes, sites, modules, bodyStarts, counts, total, executions, log, edges, invocations, forceRequests,
              cacheComputes, cacheHits, cacheWaits, diagnostics)
    }

    function Progress(): G.Reader
      reads this
    {
      G.Reader(Value(), records, lastSeq, lastTs, footer)
    }

    method Diagnose()
      modifies this`diagnostics
      ensures diagnostics == old(diagnostics) + 1
    {
      diagnostics := diagnostics + 1;
    }

    method Placeholder(id: G.NodeId)
      modifies this`nodes
      ensures nodes == G.WithPlaceholder(old(nodes), id)
    {
      if id !in nodes {
        nodes := nodes[id := G.PLACEHOLDER];
      }
    }

    method Define(id: G.NodeId, node: G.Node) returns (added: bool)
      modifies this`nodes, this`diagnostics
      ensures Value() == G.Define(old(Value()), id, node) && added == !G.Defined(old(Value()), id)
    {
      if id in nodes && nodes[id].defined {
        Diagnose();
        return false;
      }
      var merged := node;
      if id in nodes {
        merged := merged.(preview := nodes[id].preview, attributes := node.attributes + nodes[id].attributes);
      }
      nodes := nodes[id := merged];
      return true;
    }

    method OnInvocation(invocation: U64, key: G.SiteKey, arity: U64, no: U64, ts: U64)
      modifies this`nodes, this`diagnostics, this`bodyStarts, this`invocations
      ensures Value() == G.Invoke(old(Value()), invocation, key, arity, no, ts)
    {
      var added := Define(G.Invocation(invocation), G.Node(true, no, ts, Some(key), None, map["arity" := arity]));
      if added {
        bodyStarts := bodyStarts[key := (if key in bodyStarts then bodyStarts[key] else 0) + 1];
        invocations := invocations + 1;
      }
    }

    /** Both nodes exist; the first preview the second one is given stays. */
    method Mention(from: G.NodeId, to: G.NodeId, preview: Option<G.Preview>)
      modifies this`nodes
      ensures nodes == G.Mentioned(old(nodes), from, to, preview)
    {
      Placeholder(from);
      Placeholder(to);
      if preview.Some? && nodes[to].preview.None? {
        nodes := nodes[to := nodes[to].(preview := preview)];
      } else {
        assert nodes == nodes[to := nodes[to]];
      }
    }

    method Traverse(key: G.EdgeKey, no: U64, ts: U64)
      modifies this`edges
      ensures edges == G.Traversed(old(edges), key, no, ts)
    {
      var edge := if key in edges then edges[key] else G.Edge(0, no, no, ts, ts);
      edges := edges[key := edge.(count := edge.count + 1, lastSeq := no, lastTs := ts)];
    }

    method OnRelation(invocation: U64, thunk: G.ThunkRef, relation: G.Relation, index: Option<U64>, state: Option<int>,
                      preview: Option<G.Preview>, no: U64, ts: U64)
      modifies this`nodes, this`edges, this`forceRequests
      ensures Value() == G.Relate(old(Value()), invocation, thunk, relation, index, state, preview, no, ts)
    {
      hide G.Mentioned, G.Traversed;
      var from: G.NodeId, to := G.Invocation(invocation), G.NodeFor(thunk, no);
      Mention(from, to, preview);
      Traverse(G.EdgeKey(from, to, relation, index, state), no, ts);
      if relation == G.Force {
        forceRequests := forceRequests + 1;
      }
    }

    /** Counts a known outcome and gives the name its node counts it under. */
    method CountOutcome(result: U64) returns (name: Option<string>)
      modifies this`cacheComputes, this`cacheHits, this`cacheWaits
      ensures name == if result <= 2 then Some(G.CacheName(result)) else None
      ensures cacheComputes == old(cacheComputes) + (if result == 0 then 1 else 0)
      ensures cacheHits == old(cacheHits) + (if result == 1 then 1 else 0)
      ensures cacheWaits == old(cacheWaits) + (if result == 2 then 1 else 0)
    {
      if result == 0 {
        cacheComputes := cacheComputes + 1;
        name := Some("cache_compute");
      } else if result == 1 {
        cacheHits := cacheHits + 1;
        name := Some("cache_hit");
      } else if result == 2 {
        cacheWaits := cacheWaits + 1;
        name := Some("cache_wait");
      } else {
        name := None;
      }
    }

    /** One more under the name on the node, which exists from then on. */
    method CountOnNode(id: G.NodeId, name: string)
      modifies this`nodes
      ensures nodes == G.CountedOnNode(old(nodes), id, name)
    {
      Placeholder(id);
      var attributes := nodes[id].attributes;
      var n := if name in attributes then attributes[name] else 0;
      nodes := nodes[id := nodes[id].(attributes := attributes[name := n + 1])];
    }

    method OnCache(invocation: U64, result: U64) returns (failed: bool)
      modifies this`nodes, this`cacheComputes, this`cacheHits, this`cacheWaits
      ensures Outcome(failed, old(Value()), Value(), G.CacheOutcome(old(Value()), invocation, result))
    {
      hide G.CountedOnNode, G.CacheName;
      var name := CountOutcome(result);
      if name.None? {
        return true;
      }
      CountOnNode(G.Invocation(invocation), name.value);
      return false;
    }

    /** The whole row is checked before any total changes. */
    method OnCounts(execution: U64, key: G.SiteKey, row: G.Counts) returns (failed: bool)
      modifies this`executions, this`counts, this`total
      ensures Outcome(failed, old(Value()), Value(), G.CountRow(old(Value()), execution, key, row))
    {
      hide G.AddCounts;
      if mode != G.CountsOnly || key !in sites || execution !in executions {
        return true;
      }
      var run := executions[execution];
      if run.mod != key.mod || run.terminal || key.site in run.sites {
        return true;
      }
      executions := executions[execution := run.(sites := run.sites + {key.site})];
      counts := counts[key := G.AddCounts(if key in counts then counts[key] else G.NO_COUNTS, row)];
      total := G.AddCounts(total, row);
      return false;
    }

    method OnExecution(execution: U64, mod: U64, workers: U64, status: G.Status, no: U64, ts: U64) returns (failed: bool)
      modifies this`executions, this`log
      ensures Outcome(failed, old(Value()), Value(), G.Execute(old(Value()), execution, mod, workers, status, no, ts))
    {
      var entry := G.Logged(no, ts, workers, status, None, None);
      if mode == G.CountsOnly {
        entry := entry.(execution := Some(execution), mod := Some(mod));
        if status == G.Start {
          if execution in executions { return true; }
          executions := executions[execution := G.Execution(mod, workers, false, {})];
        } else if G.Ends(status) {
          if execution !in executions { return true; }
          var run := executions[execution];
          if run.terminal || run.mod != mod || run.workers != workers { return true; }
          executions := executions[execution := run.(terminal := true)];
        } else {
          return true;
        }
      }
      log := log + [entry];
      return false;
    }

    method OnName(e: G.Event)
      requires e.ModuleEvent? || e.SiteEvent?
      modifies this`modules, this`sites, this`diagnostics
      ensures Value() == G.Record(old(Value()), e, 0, 0)
    {
      if e.ModuleEvent? {
        if e.mod in modules { Diagnose(); } else { modules := modules + {e.mod}; }
      } else {
        if e.key in sites { Diagnose(); } else { sites := sites + {e.key}; }
      }
    }

    method OnDetail(e: G.Event, no: U64, ts: U64) returns (failed: bool)
      requires mode == G.Detail && G.IsDetail(e)
      modifies this`nodes, this`diagnostics, this`bodyStarts, this`invocations, this`edges, this`forceRequests,
               this`cacheComputes, this`cacheHits, this`cacheWaits
      ensures Outcome(failed, old(Value()), Value(), G.Record(old(Value()), e, no, ts))
    {
      hide G.Define, G.Invoke, G.Relate, G.CacheOutcome, G.CountRow, G.Execute;
      failed := false;
      if e.AllocationEvent? {
        var attributes: map<string, nat> := if e.born.Some? then map["words" := e.words, "born_ns" := e.born.value]
                                            else map["words" := e.words];
        var _ := Define(G.Thunk(e.id), G.Node(true, no, ts, None, None, attributes));
      } else if e.InvocationEvent? {
        OnInvocation(e.invocation, e.key, e.arity, no, ts);
      } else if e.ArgumentEvent? {
        OnRelation(e.invocation, e.thunk, G.Argument, Some(e.index), Some(e.state), e.preview, no, ts);
      } else if e.ForceEvent? {
        OnRelation(e.invocation, e.thunk, G.Force, None, Some(e.state), None, no, ts);
      } else if e.CreatedEvent? {
        OnRelation(e.invocation, e.thunk, G.Created, None, None, None, no, ts);
      } else {
        failed := OnCache(e.invocation, e.result);
      }
    }

    method OnOther(e: G.Event, no: U64, ts: U64) returns (failed: bool)
      requires mode == G.CountsOnly || !G.IsDetail(e)
      modifies this`modules, this`sites, this`diagnostics, this`executions, this`log, this`counts, this`total
      ensures Outcome(failed, old(Value()), Value(), G.Record(old(Value()), e, no, ts))
    {
      hide G.Define, G.Invoke, G.Relate, G.Allocate, G.CacheOutcome, G.CountRow, G.Execute;
      failed := false;
      if G.IsDetail(e) || e.Malformed? || (e.Header? && no != 1) {
        failed := true;
      } else if e.ModuleEvent? || e.SiteEvent? {
        OnName(e);
      } else if e.CountsEvent? {
        failed := OnCounts(e.execution, e.key, e.counts);
      } else if e.ExecutionEvent? {
        failed := OnExecution(e.execution, e.mod, e.workers, e.status, no, ts);
      }
    }

    /** A record that fails leaves the graph as it was; the caller counts the diagnostic. */
    method OnRecord(e: G.Event, no: U64, ts: U64) returns (failed: bool)
      modifies this`nodes, this`diagnostics, this`bodyStarts, this`invocations, this`edges, this`forceRequests,
               this`cacheComputes, this`cacheHits, this`cacheWaits,
               this`modules, this`sites, this`executions, this`log, this`counts, this`total
      ensures Outcome(failed, old(Value()), Value(), G.Record(old(Value()), e, no, ts))
      ensures SameCursor(old(Progress()), Progress()) && mode == old(mode)
    {
      hide G.Record, Outcome, Value;
      if mode == G.Detail && G.IsDetail(e) {
        failed := OnDetail(e, no, ts);
      } else {
        failed := OnOther(e, no, ts);
      }
    }

    /** Sequence numbers count lines, time does not go back, nothing follows the footer. */
    method DiagnoseOrder(no: U64, ts: U64)
      modifies this`diagnostics
      ensures diagnostics == old(diagnostics) + G.OrderFaults(records, lastSeq, lastTs, footer, no, ts)
    {
      if no != SatAdd(lastSeq, 1) || no != records { Diagnose(); }
      if ts < lastTs { Diagnose(); }
      if footer { Diagnose(); }
    }

    method CheckOrder(no: U64, ts: U64)
      modifies this`diagnostics, this`lastSeq, this`lastTs
      ensures Progress() == G.Checked(old(Progress()), no, ts)
    {
      hide G.OrderFaults;
      DiagnoseOrder(no, ts);
      lastSeq, lastTs := no, ts;
    }

    method DiagnoseFooter(no: U64, complete: Option<bool>, badReason: bool, count: Option<U64>)
      modifies this`diagnostics
      ensures diagnostics == old(diagnostics) + G.FooterFaults(footer, records, no, complete, badReason, count)
    {
      if footer { Diagnose(); }
      if complete != Some(true) { Diagnose(); }
      if complete == Some(false) && badReason { return; }
      if count.None? || count.value != records || count.value != no { Diagnose(); }
    }

    method OnFooter(no: U64, complete: Option<bool>, badReason: bool, count: Option<U64>)
      modifies this`diagnostics, this`footer
      ensures Progress() == G.ReadFooter(old(Progress()), no, complete, badReason, count)
    {
      hide G.FooterFaults;
      DiagnoseFooter(no, complete, badReason, count);
      footer := true;
    }

    /** The header, on the first line, counts itself as the one record. */
    method CheckHeader(line: G.Line)
      modifies this`diagnostics
      ensures Progress() == G.Diagnosed(old(Progress()), G.HeaderFault(records, line))
    {
      if records == 1 && line.Line? && line.event.Header? && line.event.info.Some? {
        if line.event.info.value.records != 1 { Diagnose(); }
      }
    }

    method ReadNumbered(line: G.Line, no: U64, ts: U64)
      requires !line.Garbled?
      modifies this
      ensures Progress() == G.ReadNumbered(old(Progress()), line, no, ts) && mode == old(mode)
    {
      hide G.Record, G.Checked, G.ReadFooter;
      CheckOrder(no, ts);
      if line.Line? {
        var failed := OnRecord(line.event, no, ts);
        if failed { Diagnose(); }
      } else {
        OnFooter(no, line.complete, line.badReason, line.records);
      }
    }

    method ReadLine(line: G.Line)
      modifies this
      ensures Progress() == G.ReadLine(old(Progress()), line) && mode == old(mode)
    {
      hide G.ReadNumbered, G.HeaderFault;
      records := records + 1;
      CheckHeader(line);
      if line.Garbled? || line.no.None? || line.no.value == 0 || line.ts.None? {
        Diagnose();
        return;
      }
      ReadNumbered(line, line.no.value, line.ts.value);
    }

    predicate PastLimits()
      reads this
      ensures PastLimits() == G.TooLarge(limits, Value())
    {
      || |nodes| > limits.nodes || |edges| > limits.relations || |sites| > limits.nodes || |modules| > limits.nodes
      || |bodyStarts.Keys + counts.Keys| > limits.nodes || |log| > limits.executions
    }

    method StartAs(header: G.HeaderInfo)
      requires Progress() == G.ReadLines(G.Detail, [])
      modifies this`mode
      ensures mode == header.mode && Progress() == G.ReadLines(mode, [])
    {
      mode := header.mode;
    }

    /** The first `n` lines are read, behind a valid header and within the limits. */
    ghost predicate ReadSoFar(lines: seq<G.Line>, n: nat)
      requires n <= |lines|
      reads this
    {
      && G.HeaderOf(lines).Some? && mode == G.HeaderOf(lines).value.mode
      && Progress() == G.ReadLines(mode, lines[..n]) && G.WithinLimits(limits, mode, lines[..n])
    }

    /** Reads line by line, and refuses the file as soon as its header or its size is found wrong. */
    method ReadAll(lines: seq<G.Line>) returns (accepted: bool)
      requires Progress() == G.ReadLines(G.Detail, [])
      modifies this
      ensures accepted ==> ReadSoFar(lines, |lines|)
      ensures accepted == (G.HeaderOf(lines).Some? && G.WithinLimits(limits, G.HeaderOf(lines).value.mode, lines))
    {
      hide G.ReadLine, G.ReadLines, G.TooLarge, Value, PastLimits, G.WithinLimits;
      var i := 0;
      while i < |lines|
        invariant i <= |lines|
        invariant if i == 0 then Progress() == G.ReadLines(G.Detail, []) else ReadSoFar(lines, i)
      {
        if i + 1 > limits.records {
          TooManyLines(limits, lines);
          return false;
        }
        if i == 0 {
          var header := G.HeaderOf(lines);
          if header.None? {
            return false;
          }
          StartAs(header.value);
          NoLinesWithin(limits, mode, lines);
        }
        ReadLine(lines[i]);
        i := i + 1;
        OneMoreRead(mode, lines, i);
        if PastLimits() {
          PrefixTooLarge(limits, mode, lines, i);
          return false;
        }
        OneMoreWithin(limits, mode, lines, i);
      }
      assert lines[..i] == lines;
      return i > 0;
    }

    /** A missing footer is a diagnostic; then come the checks of the whole, and the edges are listed. */
    method Close(order: seq<G.EdgeKey>)
      modifies this
      ensures Value() == G.Finish(G.Diagnosed(old(Progress()), G.CountIf(!footer)).graph)
      ensures footer == old(footer) && mode == old(mode)
      ensures forall id :: Listed(adjacency, id) == Incident(order, id)
    {
      hide G.Finish;
      if !footer { Diagnose(); }
      Finish();
      Connect(order);
    }

    /** Reads the whole capture and gives its two verdicts, or refuses it; `order` is that of the edge map. */
    method Read(lines: seq<G.Line>, order: seq<G.EdgeKey>) returns (accepted: bool, complete: bool, countsExact: bool)
      requires Progress() == G.ReadLines(G.Detail, [])
      modifies this
      ensures G.Imported(limits, lines) == if accepted then Some(G.Import(Value(), complete, countsExact)) else None
      ensures accepted ==> forall id :: Listed(adjacency, id) == Incident(order, id)
    {
      hide G.ReadLines, G.Finish, G.WithinLimits, G.Diagnosed;
      complete, countsExact := false, false;
      accepted := ReadAll(lines);
      if !accepted {
        return;
      }
      assert lines[..|lines|] == lines;
      Close(order);
      complete := footer && diagnostics == 0;
      countsExact := complete && !(mode == G.CountsOnly && total.overflow);
    }

    method DiagnoseEach<T(==)>(found: set<T>)
      modifies this`diagnostics
      ensures diagnostics == old(diagnostics) + |found|
    {
      var todo := found;
      while todo != {}
        invariant diagnostics + |todo| == old(diagnostics) + |found|
      {
        var x :| x in todo;
        todo := todo - {x};
        Diagnose();
      }
    }

    /** How many sites each module has. */
    method SitesPerModule() returns (expected: map<U64, nat>)
      ensures forall m :: (if m in expected then expected[m] else 0) == |G.SitesOf(sites, m)|
    {
      expected := map[];
      var todo := sites;
      while todo != {}
        invariant todo <= sites
        invariant forall m :: (if m in expected then expected[m] else 0) == |G.SitesOf(sites - todo, m)|
      {
        var key :| key in todo;
        OneMoreSite(sites - todo, key);
        assert sites - (todo - {key}) == (sites - todo) + {key};
        todo := todo - {key};
        expected := expected[key.mod := (if key.mod in expected then expected[key.mod] else 0) + 1];
      }
      assert sites - todo == sites;
    }

    /** An execution that has not ended, whose module is not listed, or that lacks rows. */
    method CheckExecution(run: G.Execution, expected: nat)
      requires expected == |G.SitesOf(sites, run.mod)|
      modifies this`diagnostics
      ensures diagnostics == old(diagnostics) + G.ExecutionFaults(old(Value()), run)
    {
      if !run.terminal { Diagnose(); }
      if run.mod !in modules { Diagnose(); }
      if |run.sites| != expected { Diagnose(); }
    }

    /** The executions are visited in the order of their numbers. */
    method CheckExecutions()
      modifies this`diagnostics
      ensures diagnostics == old(diagnostics) + G.AllFaults(old(Value()), executions)
    {
      hide G.SitesOf;
      ghost var g := Value();
      var expected := SitesPerModule();
      var todo := executions;
      while todo != map[]
        invariant diagnostics + G.AllFaults(g, todo) == old(diagnostics) + G.AllFaults(g, executions)
        decreases todo.Keys
      {
        var execution := G.LeastKey(todo.Keys);
        var run := todo[execution];
        FaultsIgnoreDiagnostics(g, Value(), run);
        CheckExecution(run, if run.mod in expected then expected[run.mod] else 0);
        todo := todo - {execution};
      }
    }

    method DiagnoseMissingModules()
      modifies this`diagnostics
      ensures diagnostics == old(diagnostics) + |G.MissingModules(old(Value()))|
    {
      var missing := set k | k in sites + (bodyStarts.Keys + counts.Keys) && k.mod !in modules :: k.mod;
      assert missing == G.MissingModules(Value());
      hide G.MissingModules;
      DiagnoseEach(missing);
    }

    method DiagnoseMissingSites()
      modifies this`diagnostics
      ensures diagnostics == old(diagnostics) + |G.MissingSites(old(Value()))|
    {
      var missing := set k | k in bodyStarts.Keys + counts.Keys && k !in sites;
      assert missing == G.MissingSites(Value());
      hide G.MissingSites;
      DiagnoseEach(missing);
    }

    method DiagnoseMissingNodes()
      modifies this`diagnostics
      ensures diagnostics == old(diagnostics) + |G.MissingNodes(old(Value()))|
    {
      var missing := set id | id in nodes && !nodes[id].defined;
      assert missing == G.MissingNodes(Value());
      hide G.MissingNodes;
      DiagnoseEach(missing);
    }

    /** Modules and sites that counts refer to, and nodes that were mentioned, but never came. */
    method DiagnoseMissing()
      modifies this`diagnostics
      ensures diagnostics == old(diagnostics) + G.MissingEndpoints(old(Value()))
    {
      hide G.MissingModules, G.MissingSites, G.MissingNodes;
      ghost var g := Value();
      DiagnoseMissingModules();
      MissingIgnoresTotals(g, Value());
      DiagnoseMissingSites();
      MissingIgnoresTotals(g, Value());
      DiagnoseMissingNodes();
    }

    /** A counts capture's summary is its grand total. */
    method SummarizeTotal()
      modifies this`invocations, this`forceRequests, this`cacheComputes, this`cacheHits, this`cacheWaits
      ensures invocations == total.bodyStarts && forceRequests == total.forceRequests
      ensures cacheComputes == total.cacheCompute && cacheHits == total.cacheHit && cacheWaits == total.cacheWait
    {
      invocations, forceRequests := total.bodyStarts, total.forceRequests;
      cacheComputes, cacheHits, cacheWaits := total.cacheCompute, total.cacheHit, total.cacheWait;
    }

    method Finish()
      modifies this`diagnostics, this`invocations, this`forceRequests, this`cacheComputes, this`cacheHits, this`cacheWaits
      ensures Value() == G.Finish(old(Value()))
    {
      hide G.AllFaults, G.MissingEndpoints;
      ghost var g := Value();
      if mode == G.CountsOnly {
        CheckExecutions();
        SummarizeTotal();
      }
      MissingIgnoresTotals(g, Value());
      DiagnoseMissing();
    }

    /** Lists every edge at both of its ends, and at one only if it is a loop. */
    method Connect(order: seq<G.EdgeKey>)
      modifies this`adjacency
      ensures forall id :: Listed(adjacency, id) == Incident(order, id)
    {
      adjacency := map[];
      var i := 0;
      while i < |order|
        invariant i <= |order| && forall id :: Listed(adjacency, id) == Incident(order[..i], id)
      {
        var key := order[i];
        ghost var listed := adjacency;
        adjacency := adjacency[key.from := Listed(adjacency, key.from) + [key]];
        if key.to != key.from {
          adjacency := adjacency[key.to := Listed(adjacency, key.to) + [key]];
        }
        i := i + 1;
        forall id ensures Listed(adjacency, id) == Incident(order[..i], id) {
          assert order[..i][..i - 1] == order[..i - 1];
          assert Listed(listed, id) == Incident(order[..i - 1], id);
        }
      }
      assert order[..i] == order;
    }
  }

  ghost predicate Outcome(failed: bool, before: G.Graph, after: G.Graph, expected: G.Graph) {
    if failed then after == before && expected == G.Diagnostic(before) else after == expected
  }

  predicate SameCursor(p: G.Reader, q: G.Reader) {
    q.records == p.records && q.lastSeq == p.lastSeq && q.lastTs == p.lastTs && q.footer == p.footer
  }

  lemma FaultsIgnoreDiagnostics(g: G.Graph, h: G.Graph, run: G.Execution)
    requires h == g.(diagnostics := h.diagnostics)
    ensures G.ExecutionFaults(h, run) == G.ExecutionFaults(g, run)
  {
  }

  lemma MissingIgnoresTotals(g: G.Graph, h: G.Graph)
    requires h.sites == g.sites && h.modules == g.modules && h.bodyStarts == g.bodyStarts && h.counts == g.counts
    requires h.nodes == g.nodes
    ensures G.MissingModules(h) == G.MissingModules(g) && G.MissingSites(h) == G.MissingSites(g)
    ensures G.MissingNodes(h) == G.MissingNodes(g) && G.MissingEndpoints(h) == G.MissingEndpoints(g)
  {
    assert G.MissingModules(h) == G.MissingModules(g);
  }

  /** A site that was not there before is one more of its module, and of no other. */
  lemma OneMoreSite(sites: set<G.SiteKey>, key: G.SiteKey)
    requires key !in sites
    ensures forall m :: |G.SitesOf(sites + {key}, m)| == |G.SitesOf(sites, m)| + if m == key.mod then 1 else 0
  {
    forall m ensures |G.SitesOf(sites + {key}, m)| == |G.SitesOf(sites, m)| + if m == key.mod then 1 else 0 {
      if m == key.mod {
        assert G.SitesOf(sites + {key}, m) == G.SitesOf(sites, m) + {key.site};
        assert key.site !in G.SitesOf(sites, m);
      } else {
        assert G.SitesOf(sites + {key}, m) == G.SitesOf(sites, m);
      }
    }
  }
}
