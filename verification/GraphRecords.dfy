/**
 What a detail capture's graph says of the file: its edges, nodes, counters, names and log are
 exactly those that the readable records show, read off the records alone.
 */
module GraphRecords {
  import opened Numbers
  import opened Options
  import opened EvalGraph
  import opened GraphCommute

  /** The records whose envelope can be read, in order. */
  function Taken(lines: seq<Line>): seq<Stamped> {
    if lines == [] then []
    else
      var last := lines[|lines| - 1];
      Taken(lines[..|lines| - 1])
      + if last.Line? && last.no.Some? && last.no.value != 0 && last.ts.Some?
        then [Stamped(last.event, last.no.value, last.ts.value)] else []
  }

  // -------------------------------------------------------------------------------- the edges

  function Shown(thunk: ThunkRef, no: U64): NodeId {
    match thunk
    case Allocated(id) => NodeId.Thunk(id)
    case External(identity) => NodeId.Unresolved(no, identity)
  }

  /** The edge a record shows: from the invocation to what it takes, forces or creates. */
  function EdgeShown(r: Stamped): Option<EdgeKey> {
    match r.event
    case ArgumentEvent(invocation, thunk, index, state, _) =>
      Some(EdgeKey(NodeId.Invocation(invocation), Shown(thunk, r.no), Argument, Some(index), Some(state)))
    case ForceEvent(invocation, thunk, state) =>
      Some(EdgeKey(NodeId.Invocation(invocation), Shown(thunk, r.no), Force, None, Some(state)))
    case CreatedEvent(invocation, thunk) =>
      Some(EdgeKey(NodeId.Invocation(invocation), Shown(thunk, r.no), Created, None, None))
    case _ => None
  }

  /** The records that show an edge, in order. */
  function Showing(rs: seq<Stamped>, key: EdgeKey): seq<Stamped> {
    if rs == [] then []
    else
      var last := rs[|rs| - 1];
      Showing(rs[..|rs| - 1], key) + if EdgeShown(last) == Some(key) then [last] else []
  }

  /** An edge is there exactly if a record shows it; it counts them, and has the stamps of the first and the last. */
  ghost predicate EdgesAre(edges: map<EdgeKey, Edge>, rs: seq<Stamped>) {
    forall key ::
      var showing := Showing(rs, key);
      && (key in edges <==> showing != [])
      && (key in edges ==>
            edges[key] == Edge(|showing|, showing[0].no, showing[|showing| - 1].no, showing[0].ts, showing[|showing| - 1].ts))
  }

  // -------------------------------------------------------------------------------- the nodes

  /** The node a record defines. */
  function Defines(r: Stamped): Option<NodeId> {
    match r.event
    case AllocationEvent(id, _, _) => Some(NodeId.Thunk(id))
    case InvocationEvent(invocation, _, _) => Some(NodeId.Invocation(invocation))
    case _ => None
  }

  /** The record names the node: defines it, has it at an end of its edge, or reports a cache outcome of it. */
  predicate Names(r: Stamped, id: NodeId) {
    || Defines(r) == Some(id)
    || (EdgeShown(r).Some? && (EdgeShown(r).value.from == id || EdgeShown(r).value.to == id))
    || (r.event.CacheEvent? && r.event.result <= 2 && id == NodeId.Invocation(r.event.invocation))
  }

  ghost predicate Named(rs: seq<Stamped>, id: NodeId) {
    exists r :: r in rs && Names(r, id)
  }

  /** The first record that defines the node. */
  function Definer(rs: seq<Stamped>, id: NodeId): Option<Stamped> {
    if rs == [] then None
    else
      var before := Definer(rs[..|rs| - 1], id);
      if before.Some? then before
      else if Defines(rs[|rs| - 1]) == Some(id) then Some(rs[|rs| - 1]) else None
  }

  /** The first preview that an argument gives the node. */
  function PreviewShown(rs: seq<Stamped>, id: NodeId): Option<Preview> {
    if rs == [] then None
    else
      var before, last := PreviewShown(rs[..|rs| - 1], id), rs[|rs| - 1];
      if before.Some? then before
      else if last.event.ArgumentEvent? && Shown(last.event.thunk, last.no) == id then last.event.preview else None
  }

  /** How often a cache outcome of the node is reported. */
  function Outcomes(rs: seq<Stamped>, id: NodeId, result: U64): nat {
    if rs == [] then 0
    else
      var last := rs[|rs| - 1].event;
      Outcomes(rs[..|rs| - 1], id, result)
      + if last.CacheEvent? && NodeId.Invocation(last.invocation) == id && last.result == result then 1 else 0
  }

  /** What the definition says of the node itself. */
  function OwnAttributes(definer: Option<Stamped>): map<string, nat> {
    match definer
    case None => map[]
    case Some(r) =>
      match r.event
      case AllocationEvent(_, words, born) =>
        if born.Some? then map["words" := words, "born_ns" := born.value] else map["words" := words]
      case InvocationEvent(_, _, arity) => map["arity" := arity]
      case _ => map[]
  }

  function WithCount(m: map<string, nat>, name: string, n: nat): map<string, nat> {
    if n == 0 then m else m[name := n]
  }

  function WithOutcomes(m: map<string, nat>, computes: nat, hits: nat, waits: nat): map<string, nat> {
    WithCount(WithCount(WithCount(m, "cache_compute", computes), "cache_hit", hits), "cache_wait", waits)
  }

  /** All that the records say of a node. */
  function NodeShown(rs: seq<Stamped>, id: NodeId): Node {
    var definer := Definer(rs, id);
    var attributes := WithOutcomes(OwnAttributes(definer), Outcomes(rs, id, 0), Outcomes(rs, id, 1), Outcomes(rs, id, 2));
    match definer
    case None => Node(false, 0, 0, None, PreviewShown(rs, id), attributes)
    case Some(r) =>
      Node(true, r.no, r.ts, if r.event.InvocationEvent? then Some(r.event.key) else None, PreviewShown(rs, id), attributes)
  }

  /** A node is there exactly if a record names it, and is what the records say of it. */
  ghost predicate NodesAre(nodes: map<NodeId, Node>, rs: seq<Stamped>) {
    forall id :: (id in nodes <==> Named(rs, id)) && (id in nodes ==> nodes[id] == NodeShown(rs, id))
  }

  // ------------------------------------------------------------------------------- an edge more

  lemma ShowingSnoc(rs: seq<Stamped>, r: Stamped, key: EdgeKey)
    ensures Showing(rs + [r], key) == Showing(rs, key) + if EdgeShown(r) == Some(key) then [r] else []
  {
    assert (rs + [r])[..|rs|] == rs;
  }

  lemma EdgesAfterTraversal(edges: map<EdgeKey, Edge>, rs: seq<Stamped>, r: Stamped)
    requires EdgesAre(edges, rs) && EdgeShown(r).Some?
    ensures EdgesAre(Traversed(edges, EdgeShown(r).value, r.no, r.ts), rs + [r])
  {
    hide EdgeShown, Showing;
    forall key ensures Showing(rs + [r], key) == Showing(rs, key) + if EdgeShown(r) == Some(key) then [r] else [] {
      ShowingSnoc(rs, r, key);
    }
  }

  lemma EdgesAfterOther(edges: map<EdgeKey, Edge>, rs: seq<Stamped>, r: Stamped)
    requires EdgesAre(edges, rs) && EdgeShown(r).None?
    ensures EdgesAre(edges, rs + [r])
  {
    hide EdgeShown, Showing;
    forall key ensures Showing(rs + [r], key) == Showing(rs, key) {
      ShowingSnoc(rs, r, key);
    }
  }

  lemma RelateEdges(g: Graph, invocation: U64, thunk: ThunkRef, relation: Relation, index: Option<U64>,
                    state: Option<int>, preview: Option<Preview>, no: U64, ts: U64)
    ensures Relate(g, invocation, thunk, relation, index, state, preview, no, ts).edges
         == Traversed(g.edges, EdgeKey(NodeId.Invocation(invocation), Shown(thunk, no), relation, index, state), no, ts)
  {
    hide Mentioned, Traversed;
  }

  lemma MentionEdges(g: Graph, r: Stamped)
    requires g.mode == Detail && IsMention(r.event)
    ensures Record(g, r.event, r.no, r.ts).edges
         == if EdgeShown(r).Some? then Traversed(g.edges, EdgeShown(r).value, r.no, r.ts) else g.edges
  {
    hide Relate, CacheOutcome, Shown;
    match r.event
    case ArgumentEvent(invocation, thunk, index, state, preview) =>
      RelateEdges(g, invocation, thunk, Argument, Some(index), Some(state), preview, r.no, r.ts);
    case ForceEvent(invocation, thunk, state) =>
      RelateEdges(g, invocation, thunk, Force, None, Some(state), None, r.no, r.ts);
    case CreatedEvent(invocation, thunk) =>
      RelateEdges(g, invocation, thunk, Created, None, None, None, r.no, r.ts);
    case CacheEvent(invocation, result) => CacheKeepsEdges(g, invocation, result);
  }

  lemma CacheKeepsEdges(g: Graph, invocation: U64, result: U64)
    ensures CacheOutcome(g, invocation, result).edges == g.edges
  {
    hide CountedOnNode, CacheName;
  }

  // -------------------------------------------------------------------------------- a node more

  lemma SnocFacts(rs: seq<Stamped>, r: Stamped, id: NodeId)
    ensures Definer(rs + [r], id)
         == if Definer(rs, id).Some? then Definer(rs, id) else if Defines(r) == Some(id) then Some(r) else None
    ensures PreviewShown(rs + [r], id)
         == if PreviewShown(rs, id).Some? then PreviewShown(rs, id)
            else if r.event.ArgumentEvent? && Shown(r.event.thunk, r.no) == id then r.event.preview else None
    ensures forall result :: Outcomes(rs + [r], id, result) == Outcomes(rs, id, result)
              + if r.event.CacheEvent? && NodeId.Invocation(r.event.invocation) == id && r.event.result == result then 1 else 0
  {
    assert (rs + [r])[..|rs|] == rs;
  }

  lemma NamedSnoc(rs: seq<Stamped>, r: Stamped, id: NodeId)
    ensures Named(rs + [r], id) <==> Named(rs, id) || Names(r, id)
  {
    hide Names;
    assert r in rs + [r] && forall q :: q in rs + [r] <==> q in rs || q == r;
  }

  lemma {:induction false} UnnamedIsPlaceholder(rs: seq<Stamped>, id: NodeId)
    requires !Named(rs, id)
    ensures Definer(rs, id).None? && PreviewShown(rs, id).None?
    ensures Outcomes(rs, id, 0) == Outcomes(rs, id, 1) == Outcomes(rs, id, 2) == 0
    ensures NodeShown(rs, id) == PLACEHOLDER
  {
    if rs != [] {
      var front, last := rs[..|rs| - 1], rs[|rs| - 1];
      assert rs == front + [last];
      NamedSnoc(front, last, id);
      UnnamedIsPlaceholder(front, id);
    }
  }

  ghost function Was(nodes: map<NodeId, Node>, id: NodeId): Node {
    if id in nodes then nodes[id] else PLACEHOLDER
  }

  lemma WasShown(nodes: map<NodeId, Node>, rs: seq<Stamped>, id: NodeId)
    requires NodesAre(nodes, rs)
    ensures Was(nodes, id) == NodeShown(rs, id)
  {
    hide NodeShown, Named;
    if id !in nodes { UnnamedIsPlaceholder(rs, id); }
  }

  lemma ShownUnnamed(rs: seq<Stamped>, r: Stamped, id: NodeId)
    requires !Names(r, id)
    ensures NodeShown(rs + [r], id) == NodeShown(rs, id)
  {
    hide Definer, PreviewShown, Outcomes, OwnAttributes, WithOutcomes;
    SnocFacts(rs, r, id);
  }

  /** The outcomes counted before a definition come on top of its own attributes. */
  lemma OutcomesOverOwn(definer: Stamped, computes: nat, hits: nat, waits: nat)
    ensures var own := OwnAttributes(Some(definer));
            own + WithOutcomes(map[], computes, hits, waits) == WithOutcomes(own, computes, hits, waits)
  {
    hide OwnAttributes;
    var own := OwnAttributes(Some(definer));
    assert own + map[] == own;
    CountAside(map[], own, "cache_compute", computes);
    CountAside(WithCount(map[], "cache_compute", computes), own, "cache_hit", hits);
    CountAside(WithCount(WithCount(map[], "cache_compute", computes), "cache_hit", hits), own, "cache_wait", waits);
  }

  lemma CountAside(a: map<string, nat>, b: map<string, nat>, name: string, n: nat)
    ensures b + WithCount(a, name, n) == WithCount(b + a, name, n)
  {
  }

  lemma DefinitionShown(r: Stamped)
    requires IsDefinition(r.event)
    ensures var d := DefinitionOf(r.event, r.no, r.ts);
            && Defines(r) == Some(d.id)
            && d.node == Node(true, r.no, r.ts, if r.event.InvocationEvent? then Some(r.event.key) else None, None, OwnAttributes(Some(r)))
  {
  }

  lemma ShownDefined(rs: seq<Stamped>, r: Stamped, id: NodeId)
    requires IsDefinition(r.event) && Defines(r) == Some(id)
    ensures var was := NodeShown(rs, id);
            NodeShown(rs + [r], id) == if was.defined then was else Merged(was, DefinitionOf(r.event, r.no, r.ts).node)
  {
    hide Definer, PreviewShown, Outcomes, OwnAttributes, WithOutcomes;
    SnocFacts(rs, r, id);
    DefinitionShown(r);
    if Definer(rs, id).None? {
      NoOwn();
      OutcomesOverOwn(r, Outcomes(rs, id, 0), Outcomes(rs, id, 1), Outcomes(rs, id, 2));
    }
  }

  lemma NoOwn()
    ensures OwnAttributes(None) == map[]
  {
  }

  lemma ShownRelated(rs: seq<Stamped>, r: Stamped, id: NodeId)
    requires EdgeShown(r).Some? && (EdgeShown(r).value.from == id || EdgeShown(r).value.to == id)
    ensures NodeShown(rs + [r], id)
         == if EdgeShown(r).value.to == id && r.event.ArgumentEvent? then WithPreview(NodeShown(rs, id), r.event.preview)
            else NodeShown(rs, id)
  {
    hide Definer, PreviewShown, Outcomes, OwnAttributes, WithOutcomes;
    SnocFacts(rs, r, id);
  }

  /** One outcome more counts one more under its name. */
  lemma OutcomeCounts(own: map<string, nat>, computes: nat, hits: nat, waits: nat, result: U64)
    requires result <= 2 && "cache_compute" !in own && "cache_hit" !in own && "cache_wait" !in own
    ensures var m, name := WithOutcomes(own, computes, hits, waits), CacheName(result);
            var n := if name in m then m[name] else 0;
            m[name := n + 1] == if result == 0 then WithOutcomes(own, computes + 1, hits, waits)
                                else if result == 1 then WithOutcomes(own, computes, hits + 1, waits)
                                else WithOutcomes(own, computes, hits, waits + 1)
  {
    assert "cache_compute" != "cache_hit" && "cache_hit" != "cache_wait" && "cache_compute" != "cache_wait";
  }

  lemma OwnHasNoOutcomes(definer: Option<Stamped>)
    ensures var own := OwnAttributes(definer); "cache_compute" !in own && "cache_hit" !in own && "cache_wait" !in own
  {
  }

  lemma ShownCached(rs: seq<Stamped>, r: Stamped, id: NodeId)
    requires r.event.CacheEvent? && r.event.result <= 2 && id == NodeId.Invocation(r.event.invocation)
    ensures NodeShown(rs + [r], id) == Touched(NodeShown(rs, id), Touch(id, None, Some(CacheName(r.event.result))))
  {
    hide Definer, PreviewShown, Outcomes, OwnAttributes, WithOutcomes, CacheName;
    SnocFacts(rs, r, id);
    OwnHasNoOutcomes(Definer(rs, id));
    OutcomeCounts(OwnAttributes(Definer(rs, id)), Outcomes(rs, id, 0), Outcomes(rs, id, 1), Outcomes(rs, id, 2), r.event.result);
  }

  lemma NodesAfterDefinition(nodes: map<NodeId, Node>, rs: seq<Stamped>, r: Stamped)
    requires NodesAre(nodes, rs) && IsDefinition(r.event)
    ensures NodesAre(DefineIn(nodes, DefinitionOf(r.event, r.no, r.ts)), rs + [r])
  {
    hide DefineIn, NodeShown, Named, Merged, DefinitionOf;
    var d := DefinitionOf(r.event, r.no, r.ts);
    DefinitionShown(r);
    DefinitionIsPlain(r.event, r.no, r.ts);
    DefineIsMerged(nodes, d);
    forall id: NodeId
      ensures Named(rs + [r], id) <==> Named(rs, id) || id == d.id
      ensures NodeShown(rs + [r], id)
           == if id != d.id || Was(nodes, id).defined then Was(nodes, id) else Merged(Was(nodes, id), d.node)
    {
      WasShown(nodes, rs, id);
      NamedSnoc(rs, r, id);
      if id == d.id { ShownDefined(rs, r, id); } else { ShownUnnamed(rs, r, id); }
    }
  }

  lemma RelationNames(r: Stamped, id: NodeId)
    requires EdgeShown(r).Some?
    ensures Names(r, id) <==> id == EdgeShown(r).value.from || id == EdgeShown(r).value.to
    ensures EdgeShown(r).value.from != EdgeShown(r).value.to
  {
  }

  /** Two nodes are touched, the second perhaps with a preview. */
  lemma NodesAfterRelation(nodes: map<NodeId, Node>, rs: seq<Stamped>, r: Stamped)
    requires NodesAre(nodes, rs) && EdgeShown(r).Some?
    ensures NodesAre(TouchAll(nodes, TouchesOf(r.event, r.no)), rs + [r])
  {
    hide NodeShown, Named, Names, EdgeShown, Shown, TouchAll, TouchesOf;
    var key := EdgeShown(r).value;
    RelationTouches(nodes, r);
    forall id: NodeId
      ensures Named(rs + [r], id) <==> Named(rs, id) || id == key.from || id == key.to
      ensures NodeShown(rs + [r], id)
           == if id == key.to && r.event.ArgumentEvent? then WithPreview(Was(nodes, id), r.event.preview) else Was(nodes, id)
    {
      WasShown(nodes, rs, id);
      NamedSnoc(rs, r, id);
      RelationNames(r, id);
      if id == key.from || id == key.to { ShownRelated(rs, r, id); } else { ShownUnnamed(rs, r, id); }
    }
  }

  lemma RelationTouches(nodes: map<NodeId, Node>, r: Stamped)
    requires EdgeShown(r).Some?
    ensures var key, preview := EdgeShown(r).value, if r.event.ArgumentEvent? then r.event.preview else None;
            TouchAll(nodes, TouchesOf(r.event, r.no))
            == nodes[key.from := Was(nodes, key.from)][key.to := WithPreview(Was(nodes, key.to), preview)]
  {
    var key, preview := EdgeShown(r).value, if r.event.ArgumentEvent? then r.event.preview else None;
    var t0, t1 := Touch(key.from, None, None), Touch(key.to, preview, None);
    assert TouchesOf(r.event, r.no) == [t0, t1];
    assert [t0, t1][1..] == [t1] && [t1][1..] == [];
    TouchPlain(nodes, key.from);
    var n1 := TouchIn(nodes, t0);
    assert TouchAll(nodes, [t0, t1]) == TouchAll(n1, [t1]) == TouchIn(n1, t1);
  }

  lemma TouchPlain(nodes: map<NodeId, Node>, id: NodeId)
    ensures TouchIn(nodes, Touch(id, None, None)) == nodes[id := Was(nodes, id)]
  {
  }

  lemma NodesAfterOutcome(nodes: map<NodeId, Node>, rs: seq<Stamped>, r: Stamped)
    requires NodesAre(nodes, rs) && r.event.CacheEvent?
    ensures NodesAre(TouchAll(nodes, TouchesOf(r.event, r.no)), rs + [r])
  {
    hide NodeShown, Named, Touched, CacheName;
    var id0: NodeId := NodeId.Invocation(r.event.invocation);
    var t := Touch(id0, None, Some(CacheName(r.event.result)));
    if r.event.result <= 2 {
      assert [t][1..] == [] && TouchAll(TouchIn(nodes, t), []) == TouchIn(nodes, t);
      assert TouchAll(nodes, TouchesOf(r.event, r.no)) == nodes[id0 := Touched(Was(nodes, id0), t)];
    }
    forall id: NodeId
      ensures Named(rs + [r], id) <==> Named(rs, id) || (r.event.result <= 2 && id == id0)
      ensures NodeShown(rs + [r], id)
           == if r.event.result <= 2 && id == id0 then Touched(Was(nodes, id), t) else Was(nodes, id)
    {
      WasShown(nodes, rs, id);
      NamedSnoc(rs, r, id);
      if r.event.result <= 2 && id == id0 { ShownCached(rs, r, id); } else { ShownUnnamed(rs, r, id); }
    }
  }

  lemma NodesAfterOther(nodes: map<NodeId, Node>, rs: seq<Stamped>, r: Stamped)
    requires NodesAre(nodes, rs) && !IsDefinition(r.event) && !IsMention(r.event)
    ensures NodesAre(nodes, rs + [r])
  {
    hide NodeShown, Named;
    forall id: NodeId ensures (Named(rs + [r], id) <==> Named(rs, id)) && NodeShown(rs + [r], id) == NodeShown(rs, id) {
      NamedSnoc(rs, r, id);
      ShownUnnamed(rs, r, id);
    }
  }

  // ------------------------------------------------------------------- counters, names and log

  function Forces(rs: seq<Stamped>): nat {
    if rs == [] then 0 else Forces(rs[..|rs| - 1]) + if rs[|rs| - 1].event.ForceEvent? then 1 else 0
  }

  /** How often a cache outcome is reported, of any invocation. */
  function Reports(rs: seq<Stamped>, result: U64): nat {
    if rs == [] then 0
    else
      var last := rs[|rs| - 1].event;
      Reports(rs[..|rs| - 1], result) + if last.CacheEvent? && last.result == result then 1 else 0
  }

  function LogShown(rs: seq<Stamped>): seq<Logged> {
    if rs == [] then []
    else
      var last := rs[|rs| - 1];
      LogShown(rs[..|rs| - 1])
      + if last.event.ExecutionEvent? then [Logged(last.no, last.ts, last.event.workers, last.event.status, None, None)] else []
  }

  function ModulesShown(rs: seq<Stamped>): set<U64> {
    if rs == [] then {}
    else
      var last := rs[|rs| - 1].event;
      ModulesShown(rs[..|rs| - 1]) + if last.ModuleEvent? then {last.mod} else {}
  }

  function SitesShown(rs: seq<Stamped>): set<SiteKey> {
    if rs == [] then {}
    else
      var last := rs[|rs| - 1].event;
      SitesShown(rs[..|rs| - 1]) + if last.SiteEvent? then {last.key} else {}
  }

  /** The record is the first to define its invocation. */
  predicate Begins(rs: seq<Stamped>, r: Stamped) {
    r.event.InvocationEvent? && Definer(rs, NodeId.Invocation(r.event.invocation)).None?
  }

  /** How many invocations begin at a site. */
  function StartsShown(rs: seq<Stamped>, key: SiteKey): nat {
    if rs == [] then 0
    else
      var front, last := rs[..|rs| - 1], rs[|rs| - 1];
      StartsShown(front, key) + if Begins(front, last) && last.event.key == key then 1 else 0
  }

  function AllStarts(rs: seq<Stamped>): nat {
    if rs == [] then 0
    else AllStarts(rs[..|rs| - 1]) + if Begins(rs[..|rs| - 1], rs[|rs| - 1]) then 1 else 0
  }

  ghost predicate StartsAre(bodyStarts: map<SiteKey, nat>, rs: seq<Stamped>) {
    forall key :: (key in bodyStarts <==> StartsShown(rs, key) > 0) && (key in bodyStarts ==> bodyStarts[key] == StartsShown(rs, key))
  }

  ghost predicate CountersAre(g: Graph, rs: seq<Stamped>) {
    && g.forceRequests == Forces(rs) && g.invocations == AllStarts(rs)
    && g.cacheComputes == Reports(rs, 0) && g.cacheHits == Reports(rs, 1) && g.cacheWaits == Reports(rs, 2)
    && g.log == LogShown(rs) && g.modules == ModulesShown(rs) && g.sites == SitesShown(rs)
    && g.counts == map[] && g.executions == map[]
  }

  /** The graph of a detail capture is what its records show, apart from the number of diagnostics. */
  ghost predicate DetailIs(g: Graph, rs: seq<Stamped>) {
    && g.mode == Detail && EdgesAre(g.edges, rs) && NodesAre(g.nodes, rs) && StartsAre(g.bodyStarts, rs) && CountersAre(g, rs)
  }

  // ------------------------------------------------------------------------------- a record more

  lemma CountersSnoc(rs: seq<Stamped>, r: Stamped)
    ensures var e, more := r.event, rs + [r];
            && Forces(more) == Forces(rs) + (if e.ForceEvent? then 1 else 0)
            && AllStarts(more) == AllStarts(rs) + (if Begins(rs, r) then 1 else 0)
            && (forall result :: Reports(more, result) == Reports(rs, result) + if e.CacheEvent? && e.result == result then 1 else 0)
            && LogShown(more)
               == LogShown(rs) + (if e.ExecutionEvent? then [Logged(r.no, r.ts, e.workers, e.status, None, None)] else [])
            && ModulesShown(more) == ModulesShown(rs) + (if e.ModuleEvent? then {e.mod} else {})
            && SitesShown(more) == SitesShown(rs) + (if e.SiteEvent? then {e.key} else {})
            && (forall key :: StartsShown(more, key) == StartsShown(rs, key) + if Begins(rs, r) && e.key == key then 1 else 0)
  {
    hide Begins;
    assert (rs + [r])[..|rs|] == rs;
  }

  lemma StartsAfter(bodyStarts: map<SiteKey, nat>, rs: seq<Stamped>, r: Stamped)
    requires StartsAre(bodyStarts, rs)
    ensures StartsAre(if Begins(rs, r) then Bumped(bodyStarts, r.event.key) else bodyStarts, rs + [r])
  {
    CountersSnoc(rs, r);
    hide StartsShown, Forces, AllStarts, Reports, LogShown, ModulesShown, SitesShown, Definer;
  }

  lemma DefinedIffDefiner(nodes: map<NodeId, Node>, rs: seq<Stamped>, id: NodeId)
    requires NodesAre(nodes, rs)
    ensures id in nodes && nodes[id].defined <==> Definer(rs, id).Some?
  {
    hide Named, Definer, PreviewShown, Outcomes, WithOutcomes, OwnAttributes;
    WasShown(nodes, rs, id);
    assert PLACEHOLDER.defined == false;
  }

  /** What a record is no fault after: names new, outcomes known, and no counts rows in a detail capture. */
  predicate Fits(rs: seq<Stamped>, r: Stamped) {
    match r.event
    case Header(_) => r.no == 1
    case ModuleEvent(m) => m !in ModulesShown(rs)
    case SiteEvent(key) => key !in SitesShown(rs)
    case AllocationEvent(id, _, _) => Definer(rs, NodeId.Thunk(id)).None?
    case InvocationEvent(invocation, _, _) => Definer(rs, NodeId.Invocation(invocation)).None?
    case ArgumentEvent(_, _, _, _, _) => true
    case ForceEvent(_, _, _) => true
    case CreatedEvent(_, _) => true
    case CacheEvent(_, result) => result <= 2
    case CountsEvent(_, _, _) => false
    case ExecutionEvent(_, _, _, _) => true
    case Malformed => false
  }

  /** The counters after a record, given what it did to each. */
  lemma CountersAfter(g: Graph, rs: seq<Stamped>, r: Stamped, g': Graph)
    requires CountersAre(g, rs)
    requires g'.forceRequests == g.forceRequests + (if r.event.ForceEvent? then 1 else 0)
    requires g'.invocations == g.invocations + (if Begins(rs, r) then 1 else 0)
    requires g'.cacheComputes == g.cacheComputes + (if r.event.CacheEvent? && r.event.result == 0 then 1 else 0)
    requires g'.cacheHits == g.cacheHits + (if r.event.CacheEvent? && r.event.result == 1 then 1 else 0)
    requires g'.cacheWaits == g.cacheWaits + (if r.event.CacheEvent? && r.event.result == 2 then 1 else 0)
    requires g'.log == g.log + (if r.event.ExecutionEvent?
                                then [Logged(r.no, r.ts, r.event.workers, r.event.status, None, None)] else [])
    requires g'.modules == g.modules + (if r.event.ModuleEvent? then {r.event.mod} else {})
    requires g'.sites == g.sites + (if r.event.SiteEvent? then {r.event.key} else {})
    requires g'.counts == g.counts && g'.executions == g.executions
    ensures CountersAre(g', rs + [r])
  {
    CountersSnoc(rs, r);
    hide Begins, Forces, AllStarts, Reports, LogShown, ModulesShown, SitesShown, StartsShown;
  }

  lemma NoMore<T, U>(s: seq<T>, a: set<U>)
    ensures s + [] == s && a + {} == a
  {
  }

  lemma DefinitionStep(g: Graph, rs: seq<Stamped>, r: Stamped)
    requires DetailIs(g, rs) && IsDefinition(r.event)
    ensures var g' := Record(g, r.event, r.no, r.ts);
            DetailIs(g', rs + [r]) && g'.diagnostics == g.diagnostics + if Fits(rs, r) then 0 else 1
  {
    var d := DefinitionOf(r.event, r.no, r.ts);
    DefinitionShown(r);
    DefinitionIsDefine(g, r.event, r.no, r.ts);
    DefinedIffDefiner(g.nodes, rs, d.id);
    NodesAfterDefinition(g.nodes, rs, r);
    EdgesAfterOther(g.edges, rs, r);
    StartsAfter(g.bodyStarts, rs, r);
    NoMore(g.log, g.modules);
    NoMore(g.log, g.sites);
    hide Record, EdgesAre, NodesAre, StartsAre, CountersAre, DefineIn, Definer, OwnAttributes;
    CountersAfter(g, rs, r, Record(g, r.event, r.no, r.ts));
  }

  lemma RelateCounters(g: Graph, invocation: U64, thunk: ThunkRef, relation: Relation, index: Option<U64>,
                       state: Option<int>, preview: Option<Preview>, no: U64, ts: U64)
    ensures var g' := Relate(g, invocation, thunk, relation, index, state, preview, no, ts);
            g' == g.(nodes := g'.nodes, edges := g'.edges, forceRequests := g.forceRequests + if relation == Force then 1 else 0)
  {
    hide Mentioned, Traversed;
  }

  lemma CacheCounters(g: Graph, invocation: U64, result: U64)
    ensures CacheOutcome(g, invocation, result)
         == g.(nodes := CacheOutcome(g, invocation, result).nodes,
               cacheComputes := g.cacheComputes + (if result == 0 then 1 else 0),
               cacheHits := g.cacheHits + (if result == 1 then 1 else 0),
               cacheWaits := g.cacheWaits + (if result == 2 then 1 else 0),
               diagnostics := g.diagnostics + (if result > 2 then 1 else 0))
  {
    hide CountedOnNode, CacheName;
  }

  lemma MentionIs(g: Graph, r: Stamped)
    requires g.mode == Detail && IsMention(r.event)
    ensures Record(g, r.event, r.no, r.ts)
         == match r.event
            case ArgumentEvent(invocation, thunk, index, state, preview) =>
              Relate(g, invocation, thunk, Argument, Some(index), Some(state), preview, r.no, r.ts)
            case ForceEvent(invocation, thunk, state) =>
              Relate(g, invocation, thunk, Force, None, Some(state), None, r.no, r.ts)
            case CreatedEvent(invocation, thunk) =>
              Relate(g, invocation, thunk, Created, None, None, None, r.no, r.ts)
            case CacheEvent(invocation, result) => CacheOutcome(g, invocation, result)
            case _ => g
  {
    hide Relate, CacheOutcome;
  }

  /** What a mention changes besides nodes and edges. */
  ghost predicate MentionCounted(g: Graph, g': Graph, e: Event) {
    g' == g.(nodes := g'.nodes, edges := g'.edges,
             forceRequests := g.forceRequests + (if e.ForceEvent? then 1 else 0),
             cacheComputes := g.cacheComputes + (if e.CacheEvent? && e.result == 0 then 1 else 0),
             cacheHits := g.cacheHits + (if e.CacheEvent? && e.result == 1 then 1 else 0),
             cacheWaits := g.cacheWaits + (if e.CacheEvent? && e.result == 2 then 1 else 0),
             diagnostics := g.diagnostics + (if e.CacheEvent? && e.result > 2 then 1 else 0))
  }

  lemma RelationCounted(g: Graph, g': Graph, e: Event)
    requires !e.CacheEvent?
    requires g' == g.(nodes := g'.nodes, edges := g'.edges, forceRequests := g.forceRequests + if e.ForceEvent? then 1 else 0)
    ensures MentionCounted(g, g', e)
  {
  }

  lemma OutcomeCounted(g: Graph, invocation: U64, result: U64)
    ensures MentionCounted(g, CacheOutcome(g, invocation, result), CacheEvent(invocation, result))
  {
    hide CacheOutcome;
    CacheCounters(g, invocation, result);
  }

  lemma MentionCounters(g: Graph, r: Stamped)
    requires g.mode == Detail && IsMention(r.event)
    ensures MentionCounted(g, Record(g, r.event, r.no, r.ts), r.event)
  {
    MentionIs(g, r);
    hide Record, Relate, CacheOutcome, MentionCounted;
    var g' := Record(g, r.event, r.no, r.ts);
    match r.event
    case ArgumentEvent(invocation, thunk, index, state, preview) =>
      RelateCounters(g, invocation, thunk, Argument, Some(index), Some(state), preview, r.no, r.ts);
      RelationCounted(g, g', r.event);
    case ForceEvent(invocation, thunk, state) =>
      RelateCounters(g, invocation, thunk, Force, None, Some(state), None, r.no, r.ts);
      RelationCounted(g, g', r.event);
    case CreatedEvent(invocation, thunk) =>
      RelateCounters(g, invocation, thunk, Created, None, None, None, r.no, r.ts);
      RelationCounted(g, g', r.event);
    case CacheEvent(invocation, result) => OutcomeCounted(g, invocation, result);
  }

  lemma MentionStep(g: Graph, rs: seq<Stamped>, r: Stamped)
    requires DetailIs(g, rs) && IsMention(r.event)
    ensures var g' := Record(g, r.event, r.no, r.ts);
            DetailIs(g', rs + [r]) && g'.diagnostics == g.diagnostics + if Fits(rs, r) then 0 else 1
  {
    MentionIsTouches(g, r.event, r.no, r.ts);
    MentionEdges(g, r);
    MentionCounters(g, r);
    hide Record, TouchAll, TouchesOf, Traversed, EdgesAre, NodesAre, StartsAre, CountersAre, Definer;
    MentionEnds(r);
    hide EdgeShown;
    if r.event.CacheEvent? {
      NodesAfterOutcome(g.nodes, rs, r);
      EdgesAfterOther(g.edges, rs, r);
    } else {
      NodesAfterRelation(g.nodes, rs, r);
      EdgesAfterTraversal(g.edges, rs, r);
    }
    StartsAfter(g.bodyStarts, rs, r);
    NoMore(g.log, g.modules);
    NoMore(g.log, g.sites);
    CountersAfter(g, rs, r, Record(g, r.event, r.no, r.ts));
  }

  lemma MentionEnds(r: Stamped)
    requires IsMention(r.event)
    ensures EdgeShown(r).None? <==> r.event.CacheEvent?
  {
  }

  /** Modules, sites, executions, headers, rows of the other mode and unreadable records. */
  lemma OtherStep(g: Graph, rs: seq<Stamped>, r: Stamped)
    requires DetailIs(g, rs) && !IsDefinition(r.event) && !IsMention(r.event)
    ensures var g' := Record(g, r.event, r.no, r.ts);
            DetailIs(g', rs + [r]) && g'.diagnostics == g.diagnostics + if Fits(rs, r) then 0 else 1
  {
    SameNames(g, rs);
    OtherFields(g, r);
    hide Record, EdgesAre, NodesAre, StartsAre, CountersAre, Definer, ModulesShown, SitesShown;
    NodesAfterOther(g.nodes, rs, r);
    EdgesAfterOther(g.edges, rs, r);
    StartsAfter(g.bodyStarts, rs, r);
    CountersAfter(g, rs, r, Record(g, r.event, r.no, r.ts));
  }

  /** What such a record does to each field. */
  lemma OtherFields(g: Graph, r: Stamped)
    requires g.mode == Detail && !IsDefinition(r.event) && !IsMention(r.event)
    ensures var g', e := Record(g, r.event, r.no, r.ts), r.event;
            && g' == g.(modules := g'.modules, sites := g'.sites, log := g'.log, diagnostics := g'.diagnostics)
            && g'.modules == g.modules + (if e.ModuleEvent? then {e.mod} else {})
            && g'.sites == g.sites + (if e.SiteEvent? then {e.key} else {})
            && g'.log == g.log + (if e.ExecutionEvent? then [Logged(r.no, r.ts, e.workers, e.status, None, None)] else [])
            && g'.diagnostics
               == g.diagnostics
                  + if (e.ModuleEvent? && e.mod !in g.modules) || (e.SiteEvent? && e.key !in g.sites) || e.ExecutionEvent?
                       || (e.Header? && r.no == 1) then 0 else 1
  {
    OtherRecord(g, r);
    hide Record;
    NoMore(g.log, g.modules);
    NoMore(g.log, g.sites);
  }

  lemma SameNames(g: Graph, rs: seq<Stamped>)
    requires CountersAre(g, rs)
    ensures g.modules == ModulesShown(rs) && g.sites == SitesShown(rs)
  {
  }

  lemma OtherRecord(g: Graph, r: Stamped)
    requires g.mode == Detail && !IsDefinition(r.event) && !IsMention(r.event)
    ensures var e := r.event;
            Record(g, e, r.no, r.ts)
            == if e.ModuleEvent? && e.mod !in g.modules then g.(modules := g.modules + {e.mod})
               else if e.SiteEvent? && e.key !in g.sites then g.(sites := g.sites + {e.key})
               else if e.ExecutionEvent? then g.(log := g.log + [Logged(r.no, r.ts, e.workers, e.status, None, None)])
               else if e.Header? && r.no == 1 then g
               else g.(diagnostics := g.diagnostics + 1)
  {
    RunRecord(g, r.event, r.no, r.ts);
    if !r.event.CountsEvent? && !r.event.ExecutionEvent? { PlainRecord(g, r.event, r.no, r.ts); }
    hide Record, CountRow, Execute;
    if r.event.CountsEvent? { NoRows(g, r.event.execution, r.event.key, r.event.counts); }
    if r.event.ExecutionEvent? {
      OnlyLogged(g, r.event.execution, r.event.mod, r.event.workers, r.event.status, r.no, r.ts);
    }
  }

  lemma NoRows(g: Graph, execution: U64, key: SiteKey, counts: Counts)
    requires g.mode == Detail
    ensures CountRow(g, execution, key, counts) == g.(diagnostics := g.diagnostics + 1)
  {
    hide AddCounts;
  }

  lemma OnlyLogged(g: Graph, execution: U64, mod: U64, workers: U64, status: Status, no: U64, ts: U64)
    requires g.mode == Detail
    ensures Execute(g, execution, mod, workers, status, no, ts)
         == g.(log := g.log + [Logged(no, ts, workers, status, None, None)])
  {
  }

  lemma RecordStep(g: Graph, rs: seq<Stamped>, r: Stamped)
    requires DetailIs(g, rs)
    ensures var g' := Record(g, r.event, r.no, r.ts);
            DetailIs(g', rs + [r]) && g'.diagnostics == g.diagnostics + if Fits(rs, r) then 0 else 1
  {
    hide DetailIs, Record, Fits;
    if IsDefinition(r.event) {
      DefinitionStep(g, rs, r);
    } else if IsMention(r.event) {
      MentionStep(g, rs, r);
    } else {
      OtherStep(g, rs, r);
    }
  }

  // ----------------------------------------------------------------------------------- the file

  lemma NothingShown()
    ensures DetailIs(EmptyGraph(Detail), [])
  {
    hide EdgesAre, NodesAre, StartsAre;
    NoEdges();
    NoNodes();
    NoStarts();
  }

  lemma NoEdges()
    ensures EdgesAre(map[], [])
  {
    assert forall key :: Showing([], key) == [];
  }

  lemma NoNodes()
    ensures NodesAre(map[], [])
  {
    hide NodeShown;
  }

  lemma NoStarts()
    ensures StartsAre(map[], [])
  {
    assert forall key :: StartsShown([], key) == 0;
  }

  lemma DiagnosedIs(g: Graph, g': Graph, rs: seq<Stamped>)
    requires DetailIs(g, rs) && g' == g.(diagnostics := g'.diagnostics)
    ensures DetailIs(g', rs)
  {
    hide EdgesAre, NodesAre, StartsAre, Forces, AllStarts, Reports, LogShown, ModulesShown, SitesShown;
  }

  lemma TakenSnoc(lines: seq<Line>, line: Line)
    ensures Taken(lines + [line])
         == Taken(lines) + if Readable(line) then [Stamped(line.event, line.no.value, line.ts.value)] else []
  {
    assert (lines + [line])[..|lines|] == lines;
  }

  lemma {:induction false} ReadShows(lines: seq<Line>)
    ensures DetailIs(ReadLines(Detail, lines).graph, Taken(lines))
  {
    hide DetailIs, ReadLine, Record;
    if lines == [] {
      NothingShown();
    } else {
      var front, line := lines[..|lines| - 1], lines[|lines| - 1];
      assert lines == front + [line];
      ReadShows(front);
      TakenSnoc(front, line);
      var r := ReadLines(Detail, front);
      var counted := ReadLineShape(r, line);
      DiagnosedIs(r.graph, counted, Taken(front));
      if Readable(line) {
        RecordStep(counted, Taken(front), Stamped(line.event, line.no.value, line.ts.value));
      } else {
        assert Taken(front) + [] == Taken(front);
      }
    }
  }

  /**
   After any detail stream the imported graph is what the readable records show: an edge from the
   invocation for each argument, force and created record, counting them and stamped by the first and
   the last; a node for each one named, with its first definition, its first preview and its cache
   outcomes; the totals, the modules, sites and executions.
   */
  lemma ImportShowsRecords(lines: seq<Line>)
    ensures DetailIs(ImportOf(Detail, lines).graph, Taken(lines))
  {
    hide DetailIs, ReadLines, MissingEndpoints;
    ReadShows(lines);
    var r := ReadLines(Detail, lines);
    assert r.graph.mode == Detail by { ShownMode(r.graph, Taken(lines)); }
    DiagnosedIs(r.graph, ImportOf(Detail, lines).graph, Taken(lines));
  }

  lemma ShownMode(g: Graph, rs: seq<Stamped>)
    requires DetailIs(g, rs)
    ensures g.mode == Detail
  {
  }
}
