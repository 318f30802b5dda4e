/** Forward references never change the imported graph: definitions and mentions commute. */
module GraphCommute {
  import opened Numbers
  import opened Options
  import opened EvalGraph

  predicate IsDefinition(e: Event) {
    e.AllocationEvent? || e.InvocationEvent?
  }

  predicate IsMention(e: Event) {
    e.ArgumentEvent? || e.ForceEvent? || e.CreatedEvent? || e.CacheEvent?
  }

  /** What a definition does, for either kind of node. */
  datatype Definition = Definition(id: NodeId, node: Node)

  function DefinitionOf(e: Event, no: U64, ts: U64): Definition
    requires IsDefinition(e)
  {
    match e
    case AllocationEvent(thunk, words, born) =>
      var attributes: map<string, nat> := if born.Some? then map["words" := words, "born_ns" := born.value]
                                          else map["words" := words];
      Definition(Thunk(thunk), Node(true, no, ts, None, None, attributes))
    case InvocationEvent(invocation, key, arity) =>
      Definition(NodeId.Invocation(invocation), Node(true, no, ts, Some(key), None, map["arity" := arity]))
  }

  ghost predicate NoCacheNames(node: Node) {
    node.defined && node.preview.None?
    && "cache_compute" !in node.attributes && "cache_hit" !in node.attributes && "cache_wait" !in node.attributes
  }

  lemma DefinitionIsPlain(e: Event, no: U64, ts: U64)
    requires IsDefinition(e)
    ensures NoCacheNames(DefinitionOf(e, no, ts).node)
  {
  }

  /** The nodes after a definition, as a function of the nodes alone. */
  function DefineIn(nodes: map<NodeId, Node>, d: Definition): map<NodeId, Node> {
    if d.id in nodes && nodes[d.id].defined then nodes
    else if d.id in nodes then
      nodes[d.id := d.node.(preview := nodes[d.id].preview, attributes := d.node.attributes + nodes[d.id].attributes)]
    else nodes[d.id := d.node]
  }

  /** What a mention does to one node it mentions. */
  datatype Touch = Touch(id: NodeId, preview: Option<Preview>, cache: Option<string>)

  function Touched(node: Node, t: Touch): Node {
    var node' := WithPreview(node, t.preview);
    match t.cache
    case None => node'
    case Some(name) =>
      var n := if name in node'.attributes then node'.attributes[name] else 0;
      node'.(attributes := node'.attributes[name := n + 1])
  }

  function TouchIn(nodes: map<NodeId, Node>, t: Touch): map<NodeId, Node> {
    var nodes' := WithPlaceholder(nodes, t.id);
    nodes'[t.id := Touched(nodes'[t.id], t)]
  }

  ghost predicate CacheNamed(t: Touch) {
    t.cache.Some? ==> t.cache.value in {"cache_compute", "cache_hit", "cache_wait"}
  }

  /** A definition merged with what mentions had put on its placeholder. */
  function Merged(was: Node, node: Node): Node {
    node.(preview := was.preview, attributes := node.attributes + was.attributes)
  }

  lemma TouchMergedNode(was: Node, node: Node, t: Touch)
    requires NoCacheNames(node) && CacheNamed(t)
    ensures Touched(Merged(was, node), t) == Merged(Touched(was, t), node)
    ensures Touched(was, t).defined == was.defined
  {
    hide NoCacheNames, CacheNamed;
    if t.cache.Some? {
      NotACacheName(node, t);
      var seen, name := WithPreview(was, t.preview).attributes, t.cache.value;
      CountedAside(seen, node.attributes, name, (if name in seen then seen[name] else 0) + 1);
    }
    NoPreview(node);
  }

  /** A count goes to its own name, whatever other names lie under the map. */
  lemma CountedAside(a: map<string, nat>, b: map<string, nat>, name: string, n: nat)
    requires name !in b
    ensures (name in b + a <==> name in a) && (name in a ==> (b + a)[name] == a[name])
    ensures (b + a)[name := n] == b + a[name := n]
  {
  }

  lemma NotACacheName(node: Node, t: Touch)
    requires NoCacheNames(node) && CacheNamed(t) && t.cache.Some?
    ensures t.cache.value !in node.attributes
  {
  }

  lemma NoPreview(node: Node)
    requires NoCacheNames(node)
    ensures node.preview.None? && node.defined
  {
  }

  lemma DefineIsMerged(nodes: map<NodeId, Node>, d: Definition)
    requires NoCacheNames(d.node)
    ensures DefineIn(nodes, d)
         == if d.id in nodes && nodes[d.id].defined then nodes
            else nodes[d.id := Merged(if d.id in nodes then nodes[d.id] else PLACEHOLDER, d.node)]
  {
    assert d.node.attributes + map[] == d.node.attributes;
  }

  /** Defining a node and touching one commute, also when it is the same node. */
  lemma DefineTouchCommute(nodes: map<NodeId, Node>, d: Definition, t: Touch)
    requires NoCacheNames(d.node) && CacheNamed(t)
    ensures TouchIn(DefineIn(nodes, d), t) == DefineIn(TouchIn(nodes, t), d)
    ensures (d.id in nodes && nodes[d.id].defined)
       <==> (d.id in TouchIn(nodes, t) && TouchIn(nodes, t)[d.id].defined)
  {
    hide Touched, Merged, DefineIn, NoCacheNames;
    DefineIsMerged(nodes, d);
    DefineIsMerged(TouchIn(nodes, t), d);
    TouchMergedNode(if d.id in nodes then nodes[d.id] else PLACEHOLDER, d.node, t);
  }

  /** The touches of a mention, in order. */
  function TouchesOf(e: Event, no: U64): seq<Touch>
    requires IsMention(e)
  {
    match e
    case ArgumentEvent(invocation, thunk, _, _, preview) =>
      [Touch(NodeId.Invocation(invocation), None, None), Touch(NodeFor(thunk, no), preview, None)]
    case ForceEvent(invocation, thunk, _) =>
      [Touch(NodeId.Invocation(invocation), None, None), Touch(NodeFor(thunk, no), None, None)]
    case CreatedEvent(invocation, thunk) =>
      [Touch(NodeId.Invocation(invocation), None, None), Touch(NodeFor(thunk, no), None, None)]
    case CacheEvent(invocation, result) =>
      if result > 2 then [] else [Touch(NodeId.Invocation(invocation), None, Some(CacheName(result)))]
  }

  function TouchAll(nodes: map<NodeId, Node>, ts: seq<Touch>): map<NodeId, Node>
    decreases |ts|
  {
    if ts == [] then nodes else TouchAll(TouchIn(nodes, ts[0]), ts[1..])
  }

  lemma {:induction false} DefineTouchAllCommute(nodes: map<NodeId, Node>, d: Definition, ts: seq<Touch>)
    requires NoCacheNames(d.node) && forall t :: t in ts ==> CacheNamed(t)
    ensures TouchAll(DefineIn(nodes, d), ts) == DefineIn(TouchAll(nodes, ts), d)
    ensures (d.id in nodes && nodes[d.id].defined)
       <==> (d.id in TouchAll(nodes, ts) && TouchAll(nodes, ts)[d.id].defined)
    decreases |ts|
  {
    if ts != [] {
      DefineTouchCommute(nodes, d, ts[0]);
      DefineTouchAllCommute(TouchIn(nodes, ts[0]), d, ts[1..]);
    }
  }

  lemma RelateIsTouches(g: Graph, invocation: U64, thunk: ThunkRef, relation: Relation, index: Option<U64>,
                        state: Option<int>, preview: Option<Preview>, no: U64, ts: U64)
    ensures Relate(g, invocation, thunk, relation, index, state, preview, no, ts).nodes
         == TouchAll(g.nodes, [Touch(NodeId.Invocation(invocation), None, None), Touch(NodeFor(thunk, no), preview, None)])
  {
    var t0, t1 := Touch(NodeId.Invocation(invocation), None, None), Touch(NodeFor(thunk, no), preview, None);
    assert [t0, t1][1..] == [t1] && [t1][1..] == [];
    var n1 := TouchIn(g.nodes, t0);
    assert n1 == WithPlaceholder(g.nodes, t0.id);
    assert TouchAll(TouchIn(n1, t1), []) == TouchIn(n1, t1);
    assert TouchAll(n1, [t1]) == TouchIn(n1, t1);
  }

  lemma CacheIsTouches(g: Graph, invocation: U64, result: U64)
    ensures CacheOutcome(g, invocation, result).nodes
         == if result > 2 then g.nodes else TouchIn(g.nodes, Touch(NodeId.Invocation(invocation), None, Some(CacheName(result))))
  {
  }

  /** A mention touches its nodes and changes edges and counters that no definition reads. */
  lemma MentionIsTouches(g: Graph, e: Event, no: U64, ts: U64)
    requires g.mode == Detail && IsMention(e)
    ensures Record(g, e, no, ts).nodes == TouchAll(g.nodes, TouchesOf(e, no))
  {
    hide Relate, CacheOutcome, TouchIn, WithPlaceholder;
    match e
    case ArgumentEvent(invocation, thunk, index, state, preview) =>
      RelateIsTouches(g, invocation, thunk, Argument, Some(index), Some(state), preview, no, ts);
    case ForceEvent(invocation, thunk, state) =>
      RelateIsTouches(g, invocation, thunk, Force, None, Some(state), None, no, ts);
    case CreatedEvent(invocation, thunk) =>
      RelateIsTouches(g, invocation, thunk, Created, None, None, None, no, ts);
    case CacheEvent(invocation, result) => CacheIsTouches(g, invocation, result);
  }

  /** A definition changes the nodes, its site's count and the counters, by whether it is a duplicate. */
  lemma DefinitionIsDefine(g: Graph, e: Event, no: U64, ts: U64)
    requires g.mode == Detail && IsDefinition(e)
    ensures var d := DefinitionOf(e, no, ts);
            var duplicate := d.id in g.nodes && g.nodes[d.id].defined;
            Record(g, e, no, ts)
            == g.(nodes := DefineIn(g.nodes, d),
                  diagnostics := g.diagnostics + CountIf(duplicate),
                  bodyStarts := if e.InvocationEvent? && !duplicate then Bumped(g.bodyStarts, e.key) else g.bodyStarts,
                  invocations := g.invocations + CountIf(e.InvocationEvent? && !duplicate))
  {
  }

  /** The two graphs differ at most in what definitions change. */
  ghost predicate SameElsewhere(g: Graph, h: Graph) {
    h == g.(nodes := h.nodes, diagnostics := h.diagnostics, bodyStarts := h.bodyStarts, invocations := h.invocations)
  }

  lemma RelateElsewhere(g: Graph, h: Graph, invocation: U64, thunk: ThunkRef, relation: Relation, index: Option<U64>,
                        state: Option<int>, preview: Option<Preview>, no: U64, ts: U64)
    requires SameElsewhere(g, h)
    ensures var g', h' := Relate(g, invocation, thunk, relation, index, state, preview, no, ts),
                          Relate(h, invocation, thunk, relation, index, state, preview, no, ts);
            && SameElsewhere(g', h') && h'.bodyStarts == h.bodyStarts && h'.invocations == h.invocations
            && h'.diagnostics == h.diagnostics
  {
    hide Mentioned, Traversed;
  }

  lemma CacheElsewhere(g: Graph, h: Graph, invocation: U64, result: U64)
    requires SameElsewhere(g, h)
    ensures var g', h' := CacheOutcome(g, invocation, result), CacheOutcome(h, invocation, result);
            && SameElsewhere(g', h') && h'.bodyStarts == h.bodyStarts && h'.invocations == h.invocations
            && h'.diagnostics == h.diagnostics + CountIf(result > 2)
  {
    hide CountedOnNode, CacheName;
  }

  /** What a mention changes besides the nodes depends on the edges and its own counters only. */
  lemma MentionElsewhere(g: Graph, h: Graph, e: Event, no: U64, ts: U64)
    requires g.mode == h.mode == Detail && IsMention(e) && SameElsewhere(g, h)
    ensures var g', h' := Record(g, e, no, ts), Record(h, e, no, ts);
            && SameElsewhere(g', h') && h'.bodyStarts == h.bodyStarts && h'.invocations == h.invocations
            && h'.diagnostics == h.diagnostics + CountIf(e.CacheEvent? && e.result > 2)
  {
    hide Relate, CacheOutcome, SameElsewhere;
    match e
    case ArgumentEvent(invocation, thunk, index, state, preview) =>
      RelateElsewhere(g, h, invocation, thunk, Argument, Some(index), Some(state), preview, no, ts);
    case ForceEvent(invocation, thunk, state) =>
      RelateElsewhere(g, h, invocation, thunk, Force, None, Some(state), None, no, ts);
    case CreatedEvent(invocation, thunk) =>
      RelateElsewhere(g, h, invocation, thunk, Created, None, None, None, no, ts);
    case CacheEvent(invocation, result) => CacheElsewhere(g, h, invocation, result);
  }

  /**
   A definition and a mention commute, whatever they are about: the same nodes, edges,
   counts and number of diagnostics come out.
   */
  lemma DefinitionAndMentionCommute(g: Graph, d: Event, dNo: U64, dTs: U64, m: Event, mNo: U64, mTs: U64)
    requires g.mode == Detail && IsDefinition(d) && IsMention(m)
    ensures Record(Record(g, d, dNo, dTs), m, mNo, mTs) == Record(Record(g, m, mNo, mTs), d, dNo, dTs)
  {
    hide Record, DefineIn, TouchAll, NoCacheNames;
    var def, touches := DefinitionOf(d, dNo, dTs), TouchesOf(m, mNo);
    DefinitionIsPlain(d, dNo, dTs);
    DefineTouchAllCommute(g.nodes, def, touches);
    DefinitionIsDefine(g, d, dNo, dTs);
    MentionIsTouches(g, m, mNo, mTs);
    var gd, gm := Record(g, d, dNo, dTs), Record(g, m, mNo, mTs);
    MentionElsewhere(g, gd, m, mNo, mTs);
    MentionElsewhere(g, g, m, mNo, mTs);
    ModeKept(g, m, mNo, mTs);
    MentionIsTouches(gd, m, mNo, mTs);
    DefinitionIsDefine(gm, d, dNo, dTs);
  }

  lemma ModeKept(g: Graph, e: Event, no: U64, ts: U64)
    requires IsDefinition(e) || IsMention(e)
    ensures Record(g, e, no, ts).mode == g.mode
  {
    if g.mode == Detail {
      if IsMention(e) {
        MentionElsewhere(g, g, e, no, ts);
        MentionKeepsMode(g, e, no, ts);
      } else {
        DefinitionIsDefine(g, e, no, ts);
      }
    }
  }

  lemma MentionKeepsMode(g: Graph, e: Event, no: U64, ts: U64)
    requires g.mode == Detail && IsMention(e)
    ensures Record(g, e, no, ts).mode == g.mode
  {
    hide WithPlaceholder, Traversed, WithPreview, CacheName;
  }

  // ------------------------------------------------------------------------- whole streams

  datatype Stamped = Stamped(event: Event, no: U64, ts: U64)

  function Fold(g: Graph, es: seq<Stamped>): Graph
    decreases |es|
  {
    if es == [] then g else Fold(Record(g, es[0].event, es[0].no, es[0].ts), es[1..])
  }

  function Definitions(es: seq<Stamped>): (ds: seq<Stamped>)
    ensures forall d :: d in ds ==> IsDefinition(d.event)
  {
    if es == [] then []
    else if IsDefinition(es[0].event) then [es[0]] + Definitions(es[1..]) else Definitions(es[1..])
  }

  function Mentions(es: seq<Stamped>): (ms: seq<Stamped>)
    ensures forall m :: m in ms ==> !IsDefinition(m.event)
  {
    if es == [] then []
    else if IsDefinition(es[0].event) then Mentions(es[1..]) else [es[0]] + Mentions(es[1..])
  }

  lemma {:induction false} MentionPastDefinitions(g: Graph, m: Stamped, ds: seq<Stamped>)
    requires g.mode == Detail && IsMention(m.event) && forall d :: d in ds ==> IsDefinition(d.event)
    ensures Fold(Record(g, m.event, m.no, m.ts), ds) == Record(Fold(g, ds), m.event, m.no, m.ts)
    decreases |ds|
  {
    hide Record;
    if ds != [] {
      var d := ds[0];
      assert d in ds;
      DefinitionAndMentionCommute(g, d.event, d.no, d.ts, m.event, m.no, m.ts);
      ModeKept(g, d.event, d.no, d.ts);
      MentionPastDefinitions(Record(g, d.event, d.no, d.ts), m, ds[1..]);
    }
  }

  /** Any stream of definitions and mentions gives the graph of its definitions, then its mentions. */
  lemma {:induction false} DefinitionsMayComeFirst(g: Graph, es: seq<Stamped>)
    requires g.mode == Detail && forall e :: e in es ==> IsDefinition(e.event) || IsMention(e.event)
    ensures Fold(g, es) == Fold(Fold(g, Definitions(es)), Mentions(es))
    decreases |es|
  {
    hide Record;
    if es != [] {
      var e, rest := es[0], es[1..];
      assert e in es;
      ModeKept(g, e.event, e.no, e.ts);
      DefinitionsMayComeFirst(Record(g, e.event, e.no, e.ts), rest);
      if IsDefinition(e.event) {
        assert ([e] + Definitions(rest))[1..] == Definitions(rest);
      } else {
        MentionPastDefinitions(g, e, Definitions(rest));
        assert ([e] + Mentions(rest))[1..] == Mentions(rest);
      }
    }
  }
}
