/** The books of a detail capture: after any stream its totals agree with its nodes and edges. */
module GraphAccounts {
  import opened Numbers
  import opened Options
  import opened Sums
  import opened EvalGraph

  type Nodes = map<NodeId, Node>

  /** The invocations that have been defined. */
  ghost function DefinedInvocations(nodes: Nodes): set<NodeId> {
    set id | id in nodes && id.Invocation? && nodes[id].defined
  }

  /** What the `invocations` query counts for a site. */
  ghost function InvocationsAt(nodes: Nodes, key: SiteKey): set<NodeId> {
    set id | id in nodes && id.Invocation? && nodes[id].site == Some(key)
  }

  ghost function StartsAt(bodyStarts: map<SiteKey, nat>, key: SiteKey): nat {
    if key in bodyStarts then bodyStarts[key] else 0
  }

  ghost function ForceCounts(edges: map<EdgeKey, Edge>): map<EdgeKey, int> {
    map k | k in edges && k.relation == Force :: edges[k].count
  }

  ghost function Ints(m: map<SiteKey, nat>): map<SiteKey, int> {
    map k | k in m :: m[k]
  }

  /** Exactly the defined invocations have a site, and both counts of them are right. */
  ghost predicate NodesOk(nodes: Nodes, bodyStarts: map<SiteKey, nat>, invocations: nat) {
    && (forall id :: id in nodes ==> (nodes[id].site.Some? <==> id.Invocation? && nodes[id].defined))
    && invocations == |DefinedInvocations(nodes)|
    && invocations == MapSum(Ints(bodyStarts))
    && (forall key :: StartsAt(bodyStarts, key) == |InvocationsAt(nodes, key)|)
  }

  ghost predicate EdgesOk(ids: set<NodeId>, edges: map<EdgeKey, Edge>, forceRequests: nat) {
    && (forall k :: k in edges ==> k.from in ids && k.to in ids)
    && forceRequests == MapSum(ForceCounts(edges))
  }

  ghost predicate Balanced(g: Graph) {
    && g.mode == Detail
    && NodesOk(g.nodes, g.bodyStarts, g.invocations)
    && EdgesOk(g.nodes.Keys, g.edges, g.forceRequests)
  }

  /** Nothing in the books moved, except that nodes were mentioned. */
  ghost predicate SameBooks(g: Graph, g': Graph) {
    && g'.mode == g.mode && g'.bodyStarts == g.bodyStarts && g'.invocations == g.invocations
    && g'.edges == g.edges && g'.forceRequests == g.forceRequests
    && OnlyTouched(g.nodes, g'.nodes)
  }

  /** No invocation was defined. */
  ghost predicate OnlyTouched(nodes: Nodes, nodes': Nodes) {
    && nodes.Keys <= nodes'.Keys
    && forall id :: id in nodes' ==> TouchedAt(nodes, nodes', id)
  }

  /** Old nodes keep their site and, unless they are thunks, their status; new ones have no site. */
  ghost predicate TouchedAt(nodes: Nodes, nodes': Nodes, id: NodeId)
    requires id in nodes'
  {
    && nodes'[id].site == (if id in nodes then nodes[id].site else None)
    && (id.Invocation? ==> nodes'[id].defined == (id in nodes && nodes[id].defined))
  }

  lemma TouchedKeepsNodes(nodes: Nodes, nodes': Nodes, bodyStarts: map<SiteKey, nat>, invocations: nat)
    requires NodesOk(nodes, bodyStarts, invocations) && OnlyTouched(nodes, nodes')
    ensures NodesOk(nodes', bodyStarts, invocations)
  {
    hide MapSum, Ints, StartsAt;
    assert DefinedInvocations(nodes') == DefinedInvocations(nodes) by {
      forall id ensures id in DefinedInvocations(nodes') <==> id in DefinedInvocations(nodes) {
        assert id in nodes' ==> TouchedAt(nodes, nodes', id);
      }
    }
    forall key ensures StartsAt(bodyStarts, key) == |InvocationsAt(nodes', key)| {
      forall id ensures id in InvocationsAt(nodes', key) <==> id in InvocationsAt(nodes, key) {
        assert id in nodes' ==> TouchedAt(nodes, nodes', id);
      }
      assert InvocationsAt(nodes', key) == InvocationsAt(nodes, key);
    }
    forall id | id in nodes' ensures nodes'[id].site.Some? <==> id.Invocation? && nodes'[id].defined {
      assert TouchedAt(nodes, nodes', id);
    }
  }

  lemma SameBooksBalanced(g: Graph, g': Graph)
    requires Balanced(g) && SameBooks(g, g')
    ensures Balanced(g')
  {
    assert g.nodes.Keys <= g'.nodes.Keys;
    hide NodesOk, OnlyTouched, MapSum, ForceCounts;
    TouchedKeepsNodes(g.nodes, g'.nodes, g.bodyStarts, g.invocations);
  }

  lemma TraversedForce(edges: map<EdgeKey, Edge>, key: EdgeKey, no: U64, ts: U64)
    ensures MapSum(ForceCounts(Traversed(edges, key, no, ts)))
         == MapSum(ForceCounts(edges)) + if key.relation == Force then 1 else 0
    ensures Traversed(edges, key, no, ts).Keys == edges.Keys + {key}
  {
    var w, w' := ForceCounts(edges), ForceCounts(Traversed(edges, key, no, ts));
    if key.relation == Force {
      var n := if key in w then w[key] else 0;
      assert w' == w[key := n + 1];
      MapSumUpdate(w, key, n + 1);
    } else {
      assert w' == w;
    }
  }

  lemma MentionOnlyTouches(nodes: Nodes, from: NodeId, to: NodeId, preview: Option<Preview>)
    ensures OnlyTouched(nodes, Mentioned(nodes, from, to, preview))
    ensures Mentioned(nodes, from, to, preview).Keys == nodes.Keys + {from, to}
  {
  }

  lemma RelateBalanced(g: Graph, invocation: U64, thunk: ThunkRef, relation: Relation, index: Option<U64>,
                       state: Option<int>, preview: Option<Preview>, no: U64, ts: U64)
    requires Balanced(g)
    ensures Balanced(Relate(g, invocation, thunk, relation, index, state, preview, no, ts))
  {
    hide NodesOk, ForceCounts, MapSum, Traversed;
    var g' := Relate(g, invocation, thunk, relation, index, state, preview, no, ts);
    var key := EdgeKey(NodeId.Invocation(invocation), NodeFor(thunk, no), relation, index, state);
    MentionOnlyTouches(g.nodes, key.from, key.to, preview);
    hide OnlyTouched, Mentioned;
    TouchedKeepsNodes(g.nodes, g'.nodes, g.bodyStarts, g.invocations);
    TraversedForce(g.edges, key, no, ts);
  }

  lemma CacheBalanced(g: Graph, invocation: U64, result: U64)
    requires Balanced(g)
    ensures Balanced(CacheOutcome(g, invocation, result))
  {
    hide Balanced, OnlyTouched, CacheName;
    var g' := CacheOutcome(g, invocation, result);
    if result > 2 {
      SameNodesTouched(g.nodes);
    } else {
      var id := NodeId.Invocation(invocation);
      assert g'.nodes == g.nodes[id := g'.nodes[id]];
      TouchOne(g.nodes, id, g'.nodes[id]);
    }
    SameBooksBalanced(g, g');
  }

  lemma SameNodesTouched(nodes: Nodes)
    ensures OnlyTouched(nodes, nodes)
  {
  }

  lemma TouchOne(nodes: Nodes, id: NodeId, node: Node)
    requires TouchedAt(nodes, nodes[id := node], id)
    ensures OnlyTouched(nodes, nodes[id := node])
  {
  }

  lemma ThunkHasNoSite(g: Graph, thunk: U64)
    requires Balanced(g) && Thunk(thunk) in g.nodes
    ensures g.nodes[Thunk(thunk)].site.None?
  {
    hide MapSum, ForceCounts, Ints, InvocationsAt, DefinedInvocations;
  }

  lemma AllocateBalanced(g: Graph, thunk: U64, words: U64, born: Option<nat>, no: U64, ts: U64)
    requires Balanced(g)
    ensures Balanced(Allocate(g, thunk, words, born, no, ts))
  {
    hide Balanced, OnlyTouched;
    var id, g' := Thunk(thunk), Allocate(g, thunk, words, born, no, ts);
    if Defined(g, id) {
      SameNodesTouched(g.nodes);
    } else {
      if id in g.nodes { ThunkHasNoSite(g, thunk); }
      TouchOne(g.nodes, id, g'.nodes[id]);
    }
    SameBooksBalanced(g, g');
  }

  /** A newly defined invocation is counted once, at its site. */
  lemma DefinedKeepsNodes(nodes: Nodes, bodyStarts: map<SiteKey, nat>, invocations: nat, id: NodeId, node: Node, key: SiteKey)
    requires NodesOk(nodes, bodyStarts, invocations)
    requires id.Invocation? && (id in nodes ==> !nodes[id].defined) && node.defined && node.site == Some(key)
    ensures NodesOk(nodes[id := node], Bumped(bodyStarts, key), invocations + 1)
  {
    hide MapSum;
    assert DefinedInvocations(nodes[id := node]) == DefinedInvocations(nodes) + {id};
    BumpedSum(bodyStarts, key);
    forall k ensures StartsAt(Bumped(bodyStarts, key), k) == |InvocationsAt(nodes[id := node], k)| {
      hide NodesOk, DefinedInvocations, InvocationsAt;
      InvocationAdded(nodes, bodyStarts, invocations, id, node, key, k);
    }
  }

  lemma BumpedSum(bodyStarts: map<SiteKey, nat>, key: SiteKey)
    ensures MapSum(Ints(Bumped(bodyStarts, key))) == MapSum(Ints(bodyStarts)) + 1
  {
    hide MapSum;
    assert Ints(Bumped(bodyStarts, key)) == Ints(bodyStarts)[key := StartsAt(bodyStarts, key) + 1];
    MapSumUpdate(Ints(bodyStarts), key, StartsAt(bodyStarts, key) + 1);
  }

  lemma InvocationAdded(nodes: Nodes, bodyStarts: map<SiteKey, nat>, invocations: nat, id: NodeId, node: Node,
                        key: SiteKey, k: SiteKey)
    requires NodesOk(nodes, bodyStarts, invocations)
    requires id.Invocation? && (id in nodes ==> !nodes[id].defined) && node.defined && node.site == Some(key)
    ensures StartsAt(Bumped(bodyStarts, key), k) == |InvocationsAt(nodes[id := node], k)|
  {
    hide MapSum, Ints, DefinedInvocations;
    assert id in nodes ==> nodes[id].site.None?;
    assert StartsAt(bodyStarts, k) == |InvocationsAt(nodes, k)|;
    hide NodesOk, InvocationsAt;
    CountAdded(nodes, id, node, k);
  }

  lemma CountAdded(nodes: Nodes, id: NodeId, node: Node, k: SiteKey)
    requires id.Invocation? && (id in nodes ==> nodes[id].site.None?)
    ensures |InvocationsAt(nodes[id := node], k)| == |InvocationsAt(nodes, k)| + if node.site == Some(k) then 1 else 0
  {
    var at := InvocationsAt(nodes, k);
    if node.site == Some(k) {
      assert InvocationsAt(nodes[id := node], k) == at + {id};
    } else {
      assert InvocationsAt(nodes[id := node], k) == at;
    }
  }

  lemma InvokeBalanced(g: Graph, invocation: U64, key: SiteKey, arity: U64, no: U64, ts: U64)
    requires Balanced(g)
    ensures Balanced(Invoke(g, invocation, key, arity, no, ts))
  {
    hide NodesOk, Bumped, ForceCounts, MapSum;
    var id, g' := NodeId.Invocation(invocation), Invoke(g, invocation, key, arity, no, ts);
    if !Defined(g, id) {
      DefinedKeepsNodes(g.nodes, g.bodyStarts, g.invocations, id, g'.nodes[id], key);
    }
  }

  lemma NamesKeepBooks(g: Graph, g': Graph)
    requires g'.mode == g.mode && g'.bodyStarts == g.bodyStarts && g'.invocations == g.invocations
    requires g'.edges == g.edges && g'.forceRequests == g.forceRequests && g'.nodes == g.nodes
    ensures SameBooks(g, g')
  {
  }

  /** The events that only count a diagnostic, add a name, or belong to the other mode. */
  lemma OtherEventKeepsBooks(g: Graph, e: Event, no: U64, ts: U64)
    requires g.mode == Detail && !IsDetail(e)
    ensures SameBooks(g, Record(g, e, no, ts))
  {
    hide Record, CountRow, Execute, SameBooks;
    RunRecord(g, e, no, ts);
    if e.CountsEvent? || e.ExecutionEvent? {
      OtherModeKeepsBooks(g, e, no, ts);
    } else {
      PlainRecord(g, e, no, ts);
      NamesKeepBooks(g, Record(g, e, no, ts));
    }
  }

  /** A detail capture takes no counts row, and its executions are only listed. */
  lemma OtherModeKeepsBooks(g: Graph, e: Event, no: U64, ts: U64)
    requires g.mode == Detail
    ensures e.CountsEvent? ==> SameBooks(g, CountRow(g, e.execution, e.key, e.counts))
    ensures e.ExecutionEvent? ==> SameBooks(g, Execute(g, e.execution, e.mod, e.workers, e.status, no, ts))
  {
  }

  lemma RecordBalanced(g: Graph, e: Event, no: U64, ts: U64)
    requires Balanced(g)
    ensures Balanced(Record(g, e, no, ts))
  {
    assert g.mode == Detail;
    hide Balanced, Allocate, Invoke, Relate, CacheOutcome, CountRow, Execute, SameBooks;
    if !IsDetail(e) {
      OtherEventKeepsBooks(g, e, no, ts);
      SameBooksBalanced(g, Record(g, e, no, ts));
    } else if e.AllocationEvent? {
      AllocateBalanced(g, e.id, e.words, e.born, no, ts);
    } else if e.InvocationEvent? {
      InvokeBalanced(g, e.invocation, e.key, e.arity, no, ts);
    } else if e.ArgumentEvent? {
      RelateBalanced(g, e.invocation, e.thunk, Argument, Some(e.index), Some(e.state), e.preview, no, ts);
    } else if e.ForceEvent? {
      RelateBalanced(g, e.invocation, e.thunk, Force, None, Some(e.state), None, no, ts);
    } else if e.CreatedEvent? {
      RelateBalanced(g, e.invocation, e.thunk, Created, None, None, None, no, ts);
    } else {
      CacheBalanced(g, e.invocation, e.result);
    }
  }

  lemma EmptyBalanced()
    ensures Balanced(EmptyGraph(Detail))
  {
    var g := EmptyGraph(Detail);
    assert DefinedInvocations(g.nodes) == {} && Ints(g.bodyStarts) == map[] && ForceCounts(g.edges) == map[];
    forall key ensures |InvocationsAt(g.nodes, key)| == 0 { assert InvocationsAt(g.nodes, key) == {}; }
  }

  lemma ReadLineBalanced(r0: Reader, line: Line)
    requires Balanced(r0.graph)
    ensures Balanced(ReadLine(r0, line).graph)
  {
    hide Balanced, Record, ReadLine;
    var counted := ReadLineShape(r0, line);
    SameBooksBalanced(r0.graph, counted);
    if Readable(line) {
      RecordBalanced(counted, line.event, line.no.value, line.ts.value);
    }
  }

  lemma {:induction false} ReadBalanced(lines: seq<Line>)
    ensures Balanced(ReadLines(Detail, lines).graph)
  {
    hide Balanced, ReadLine;
    if lines == [] {
      EmptyBalanced();
    } else {
      ReadBalanced(lines[..|lines| - 1]);
      ReadLineBalanced(ReadLines(Detail, lines[..|lines| - 1]), lines[|lines| - 1]);
    }
  }

  /**
   After any stream: the invocation total is the number of defined invocations and the sum of
   the sites' body starts, each site's body starts are what its invocations query counts, the
   force total is the sum over force edges, and every edge ends in nodes that exist.
   */
  lemma DetailImportBalanced(lines: seq<Line>)
    ensures var g := ImportOf(Detail, lines).graph;
            && g.invocations == |DefinedInvocations(g.nodes)| == MapSum(Ints(g.bodyStarts))
            && (forall key :: StartsAt(g.bodyStarts, key) == |InvocationsAt(g.nodes, key)|)
            && g.forceRequests == MapSum(ForceCounts(g.edges))
            && (forall k :: k in g.edges ==> k.from in g.nodes && k.to in g.nodes)
  {
    ImportBalanced(lines);
  }

  lemma ImportBalanced(lines: seq<Line>)
    ensures Balanced(ImportOf(Detail, lines).graph)
  {
    hide Balanced, ReadLines, MissingEndpoints;
    ReadBalanced(lines);
    ModeOf(ReadLines(Detail, lines).graph);
    SameBooksBalanced(ReadLines(Detail, lines).graph, ImportOf(Detail, lines).graph);
  }

  lemma ModeOf(g: Graph)
    requires Balanced(g)
    ensures g.mode == Detail
  {
  }
}
