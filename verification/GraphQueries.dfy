/** The queries over an imported graph: the edges around a node, one page at a time. */
module GraphQueries {
  import opened Numbers
  import opened Options
  import opened EvalGraph
  import opened GraphAccounts

  datatype Direction = Both | Incoming | Outgoing

  predicate Touches(key: EdgeKey, id: NodeId) {
    key.from == id || key.to == id
  }

  predicate Wanted(key: EdgeKey, id: NodeId, direction: Direction) {
    match direction
    case Both => Touches(key, id)
    case Incoming => key.to == id
    case Outgoing => key.from == id
  }

  function Listed(adjacency: map<NodeId, seq<EdgeKey>>, id: NodeId): seq<EdgeKey> {
    if id in adjacency then adjacency[id] else []
  }

  /** The edges at a node, in the order the edge map is walked in. */
  function Incident(order: seq<EdgeKey>, id: NodeId): seq<EdgeKey> {
    if order == [] then []
    else
      var front, key := order[..|order| - 1], order[|order| - 1];
      if Touches(key, id) then Incident(front, id) + [key] else Incident(front, id)
  }

  function Filtered(keys: seq<EdgeKey>, id: NodeId, direction: Direction): seq<EdgeKey> {
    if keys == [] then []
    else
      var front, key := keys[..|keys| - 1], keys[|keys| - 1];
      if direction == Both || (direction == Incoming && key.to == id) || (direction == Outgoing && key.from == id)
      then Filtered(front, id, direction) + [key] else Filtered(front, id, direction)
  }

  function Page<T>(rows: seq<T>, offset: nat, limit: nat): seq<T> {
    if offset >= |rows| then [] else rows[offset..Min(offset + limit, |rows|)]
  }

  datatype Neighborhood = Neighborhood(total: nat, edges: seq<EdgeKey>, nodes: set<NodeId>)

  function Endpoints(keys: seq<EdgeKey>): set<NodeId> {
    (set k | k in keys :: k.from) + (set k | k in keys :: k.to)
  }

  /** Only a detail capture has edges, a page has 1 to 200 rows, and the node must exist. */
  predicate Answerable(g: Graph, id: NodeId, limit: nat) {
    g.mode == Detail && 1 <= limit <= 200 && id in g.nodes
  }

  /** The total counts all rows, the page shows some of them, with the nodes at their ends; `None` is an error. */
  function NeighborhoodOf(g: Graph, adjacency: map<NodeId, seq<EdgeKey>>, id: NodeId, direction: Direction,
                          offset: nat, limit: nat): Option<Neighborhood>
  {
    if !Answerable(g, id, limit) then None
    else
      var rows := Filtered(Listed(adjacency, id), id, direction);
      var edges := Page(rows, offset, limit);
      Some(Neighborhood(|rows|, edges, {id} + Endpoints(edges)))
  }

  // ------------------------------------------------------------------- what the queries promise

  /** The edge map is walked in some order, every edge once. */
  ghost predicate IsOrder(order: seq<EdgeKey>, keys: set<EdgeKey>) {
    && (forall k :: k in order <==> k in keys)
    && (forall i, j :: 0 <= i < j < |order| ==> order[i] != order[j])
  }

  ghost predicate Distinct<T>(s: seq<T>) {
    forall i, j :: 0 <= i < j < |s| ==> s[i] != s[j]
  }

  lemma {:induction false} IncidentExact(order: seq<EdgeKey>, id: NodeId)
    requires Distinct(order)
    ensures Distinct(Incident(order, id))
    ensures forall k :: k in Incident(order, id) <==> k in order && Touches(k, id)
  {
    if order != [] {
      var front, key := order[..|order| - 1], order[|order| - 1];
      IncidentExact(front, id);
      assert order == front + [key];
      assert key !in front;
    }
  }

  lemma {:induction false} FilteredExact(keys: seq<EdgeKey>, id: NodeId, direction: Direction)
    requires Distinct(keys) && forall k :: k in keys ==> Touches(k, id)
    ensures Distinct(Filtered(keys, id, direction))
    ensures forall k :: k in Filtered(keys, id, direction) <==> k in keys && Wanted(k, id, direction)
  {
    if keys != [] {
      var front, key := keys[..|keys| - 1], keys[|keys| - 1];
      assert keys == front + [key];
      FilteredExact(front, id, direction);
      assert key !in front && Touches(key, id);
    }
  }

  lemma {:induction false} DistinctSize<T>(s: seq<T>, all: set<T>)
    requires Distinct(s) && forall x :: x in s <==> x in all
    ensures |s| == |all|
  {
    if s == [] {
      assert all == {};
    } else {
      var front, last := s[..|s| - 1], s[|s| - 1];
      assert s == front + [last];
      assert last !in front;
      DistinctSize(front, all - {last});
    }
  }

  lemma RowsAreExact(order: seq<EdgeKey>, id: NodeId, direction: Direction)
    requires Distinct(order)
    ensures var rows := Filtered(Incident(order, id), id, direction);
            Distinct(rows) && forall k :: k in rows <==> k in order && Wanted(k, id, direction)
  {
    IncidentExact(order, id);
    FilteredExact(Incident(order, id), id, direction);
  }

  /** The wanted edges around a node, in the order in which the edge map is walked. */
  function WantedIn(order: seq<EdgeKey>, id: NodeId, direction: Direction): seq<EdgeKey> {
    if order == [] then []
    else
      var key := order[|order| - 1];
      WantedIn(order[..|order| - 1], id, direction) + if Wanted(key, id, direction) then [key] else []
  }

  lemma {:induction false} RowsAreWanted(order: seq<EdgeKey>, id: NodeId, direction: Direction)
    ensures Filtered(Incident(order, id), id, direction) == WantedIn(order, id, direction)
  {
    if order != [] {
      var front, key := order[..|order| - 1], order[|order| - 1];
      RowsAreWanted(front, id, direction);
      if Touches(key, id) {
        assert (Incident(front, id) + [key])[..|Incident(front, id)|] == Incident(front, id);
      }
    }
  }

  /** What a query answers about a closed graph whose edges stand in `order`. */
  ghost predicate IsAnswer(n: Neighborhood, order: seq<EdgeKey>, id: NodeId, direction: Direction, offset: nat, limit: nat) {
    var rows := WantedIn(order, id, direction);
    && n.total == |rows|
    && n.edges == rows[Min(offset, |rows|)..Min(offset + limit, |rows|)]
    && forall m :: m in n.nodes <==> m == id || exists k :: k in n.edges && (k.from == m || k.to == m)
  }

  /** The wanted edges stand in the rows exactly once each. */
  lemma WantedOnce(edges: set<EdgeKey>, order: seq<EdgeKey>, id: NodeId, direction: Direction)
    requires IsOrder(order, edges)
    ensures var rows := WantedIn(order, id, direction);
            && Distinct(rows) && (forall k :: k in rows <==> k in edges && Wanted(k, id, direction))
            && |rows| == |set k | k in edges && Wanted(k, id, direction)|
  {
    hide Wanted, Incident, Filtered, WantedIn;
    RowsAreExact(order, id, direction);
    RowsAreWanted(order, id, direction);
    DistinctSize(WantedIn(order, id, direction), set k | k in edges && Wanted(k, id, direction));
  }

  /**
   The neighborhood of a node of an imported detail capture: a query is answered exactly if the node
   exists and the page has 1 to 200 rows. The total counts all edges of the wanted direction, a loop
   once; the edges shown are those of the page; the nodes named are the asked one and both ends of
   each edge shown, and they all exist.
   */
  lemma NeighborhoodIsExact(lines: seq<Line>, adjacency: map<NodeId, seq<EdgeKey>>, order: seq<EdgeKey>,
                            id: NodeId, direction: Direction, offset: nat, limit: nat)
    requires var g := ImportOf(Detail, lines).graph;
             IsOrder(order, g.edges.Keys) && Listed(adjacency, id) == Incident(order, id)
    ensures var g := ImportOf(Detail, lines).graph;
            var n := NeighborhoodOf(g, adjacency, id, direction, offset, limit);
            && (n.Some? <==> id in g.nodes && 1 <= limit <= 200)
            && (n.Some? ==> IsAnswer(n.value, order, id, direction, offset, limit) && n.value.nodes <= g.nodes.Keys)
            && |WantedIn(order, id, direction)| == |set k | k in g.edges && Wanted(k, id, direction)|
  {
    var g := ImportOf(Detail, lines).graph;
    hide ImportOf, NeighborhoodOf, DefinedInvocations, InvocationsAt, ForceCounts, WantedIn, IsAnswer, Balanced;
    DetailImportBalanced(lines);
    ImportBalanced(lines);
    ModeOf(g);
    WantedOnce(g.edges.Keys, order, id, direction);
    NeighborhoodOfClosedGraph(g, adjacency, order, id, direction, offset, limit);
  }

  lemma NeighborhoodOfClosedGraph(g: Graph, adjacency: map<NodeId, seq<EdgeKey>>, order: seq<EdgeKey>,
                                  id: NodeId, direction: Direction, offset: nat, limit: nat)
    requires g.mode == Detail && forall k :: k in g.edges ==> k.from in g.nodes && k.to in g.nodes
    requires IsOrder(order, g.edges.Keys) && Listed(adjacency, id) == Incident(order, id)
    ensures var n := NeighborhoodOf(g, adjacency, id, direction, offset, limit);
            && (n.Some? <==> id in g.nodes && 1 <= limit <= 200)
            && (n.Some? ==> IsAnswer(n.value, order, id, direction, offset, limit) && n.value.nodes <= g.nodes.Keys)
  {
    hide Wanted, Incident, Filtered, Listed, WantedIn, IsOrder;
    RowsAreWanted(order, id, direction);
    var rows := WantedIn(order, id, direction);
    var edges := Page(rows, offset, limit);
    assert edges == rows[Min(offset, |rows|)..Min(offset + limit, |rows|)];
    WantedOnce(g.edges.Keys, order, id, direction);
    forall k | k in edges ensures k in g.edges { assert k in rows; }
    EndsAre(id, edges);
  }

  lemma EndsAre(id: NodeId, edges: seq<EdgeKey>)
    ensures forall m :: m in {id} + Endpoints(edges) <==> m == id || exists k :: k in edges && (k.from == m || k.to == m)
  {
  }

  /** Consecutive pages, put together, are all rows. */
  lemma {:induction false} PagesCoverRows<T>(rows: seq<T>, pages: nat, limit: nat)
    requires limit > 0 && pages * limit >= |rows|
    ensures Concatenated(rows, pages, limit) == rows
  {
    PagesArePrefix(rows, pages, limit);
  }

  ghost function Concatenated<T>(rows: seq<T>, pages: nat, limit: nat): seq<T> {
    if pages == 0 then [] else Concatenated(rows, pages - 1, limit) + Page(rows, (pages - 1) * limit, limit)
  }

  lemma {:induction false} PagesArePrefix<T>(rows: seq<T>, pages: nat, limit: nat)
    ensures Concatenated(rows, pages, limit) == rows[..Min(pages * limit, |rows|)]
  {
    if pages > 0 {
      PagesArePrefix(rows, pages - 1, limit);
      assert pages * limit == (pages - 1) * limit + limit;
    }
  }

  /** The edges of the first `pages` answers of a query asked page by page. */
  ghost function AskedInPages(g: Graph, adjacency: map<NodeId, seq<EdgeKey>>, id: NodeId, direction: Direction,
                              limit: nat, pages: nat): seq<EdgeKey>
    requires Answerable(g, id, limit)
  {
    if pages == 0 then []
    else AskedInPages(g, adjacency, id, direction, limit, pages - 1)
         + NeighborhoodOf(g, adjacency, id, direction, (pages - 1) * limit, limit).value.edges
  }

  lemma {:induction false} AskedIsConcatenated(g: Graph, adjacency: map<NodeId, seq<EdgeKey>>, id: NodeId,
                                               direction: Direction, limit: nat, pages: nat)
    requires Answerable(g, id, limit)
    ensures AskedInPages(g, adjacency, id, direction, limit, pages)
         == Concatenated(Filtered(Listed(adjacency, id), id, direction), pages, limit)
  {
    if pages > 0 { AskedIsConcatenated(g, adjacency, id, direction, limit, pages - 1); }
  }

  /** Asked page by page, a query lists every wanted edge exactly once, in the map's order. */
  lemma PagesListEveryEdge(lines: seq<Line>, adjacency: map<NodeId, seq<EdgeKey>>, order: seq<EdgeKey>,
                           id: NodeId, direction: Direction, limit: nat, pages: nat)
    requires var g := ImportOf(Detail, lines).graph;
             IsOrder(order, g.edges.Keys) && Listed(adjacency, id) == Incident(order, id) && Answerable(g, id, limit)
    requires pages * limit >= |WantedIn(order, id, direction)|
    ensures var g, rows := ImportOf(Detail, lines).graph, WantedIn(order, id, direction);
            && AskedInPages(g, adjacency, id, direction, limit, pages) == rows
            && Distinct(rows) && forall k :: k in rows <==> k in g.edges && Wanted(k, id, direction)
  {
    hide ImportOf, WantedIn, Concatenated, Filtered, Incident;
    var g := ImportOf(Detail, lines).graph;
    RowsAreWanted(order, id, direction);
    WantedOnce(g.edges.Keys, order, id, direction);
    AskedIsConcatenated(g, adjacency, id, direction, limit, pages);
    PagesCoverRows(WantedIn(order, id, direction), pages, limit);
  }
}
