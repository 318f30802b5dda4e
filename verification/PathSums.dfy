/**
 Sums of weighted paths, node by node. Each item is a root-first path with a weight; the
 nodes are the prefixes of the paths. Three laws: a node's weight is what its children
 weigh plus what ends at it; an address's weight is the weight of its topmost nodes; what
 ends at nodes of an address is what ends in that address.
 */
module PathSums {
  import opened Options
  import opened Sums
  import opened CallTrie

  datatype Weighted = Weighted(path: Path, weight: nat)

  ghost function Prefixes(r: Path): (s: set<Path>)
    ensures forall p :: p in s <==> p <= r
  {
    if r == [] then {[]}
    else
      var s := Prefixes(r[..|r| - 1]) + {r};
      assert forall p :: p in s <==> p <= r by {
        forall p ensures p in s <==> p <= r {
          assert p <= r && |p| == |r| ==> p == r;
        }
      }
      s
  }

  ghost function Nodes(ws: seq<Weighted>): set<Path> {
    if ws == [] then {[]} else Nodes(ws[..|ws| - 1]) + Prefixes(ws[|ws| - 1].path)
  }

  /** Total weight of the items whose path counts at node `p`. */
  ghost function WeightAt(ws: seq<Weighted>, hit: (Path, Path) -> bool, p: Path): nat {
    if ws == [] then 0
    else
      var last := ws[|ws| - 1];
      WeightAt(ws[..|ws| - 1], hit, p) + if hit(p, last.path) then last.weight else 0
  }

  ghost function Through(): (Path, Path) -> bool { (p: Path, r: Path) => p <= r }
  ghost function Ending(): (Path, Path) -> bool { (p: Path, r: Path) => p == r }

  /** Total weight of the items whose path satisfies `sel`. */
  ghost function WeightOf(ws: seq<Weighted>, sel: Path -> bool): nat {
    if ws == [] then 0
    else
      var last := ws[|ws| - 1];
      WeightOf(ws[..|ws| - 1], sel) + if sel(last.path) then last.weight else 0
  }

  ghost function Mentions(a: Addr): Path -> bool { (r: Path) => a in r }
  ghost function LeafIs(a: Addr): Path -> bool { (r: Path) => r != [] && r[|r| - 1] == a }

  ghost function Weights(ws: seq<Weighted>, at: Path -> bool, hit: (Path, Path) -> bool): map<Path, int> {
    map p | p in Nodes(ws) && at(p) :: WeightAt(ws, hit, p)
  }

  /**
   Double counting. If each path counts at exactly one of the chosen nodes, or at none, the
   chosen nodes together weigh as much as the paths that count somewhere.
   */
  lemma {:induction false} CountOnce(ws: seq<Weighted>, at: Path -> bool, hit: (Path, Path) -> bool,
                                     star: Path -> Option<Path>, sel: Path -> bool)
    requires forall p, r :: at(p) && hit(p, r) ==> star(r) == Some(p)
    requires forall r :: star(r).Some? ==> star(r).value <= r && at(star(r).value) && hit(star(r).value, r)
    requires forall r :: sel(r) <==> star(r).Some?
    ensures MapSum(Weights(ws, at, hit)) == WeightOf(ws, sel)
  {
    if ws == [] {
      assert Weights(ws, at, hit).Keys <= {[]};
      assert MapSum(Weights(ws, at, hit)) == 0 by { MapSumZeros(map[], Weights(ws, at, hit)); }
    } else {
      var front, last := ws[..|ws| - 1], ws[|ws| - 1];
      CountOnce(front, at, hit, star, sel);
      var w, u := Weights(front, at, hit), Weights(ws, at, hit);
      forall p | p in u && p !in w ensures WeightAt(front, hit, p) == 0 {
        OutsideWeighsNothing(front, at, hit, star, p);
      }
      match star(last.path)
      case None => MapSumZeros(w, u);
      case Some(p) =>
        MapSumBump(w, u, p, last.weight);
    }
  }

  lemma {:induction false} OutsideWeighsNothing(ws: seq<Weighted>, at: Path -> bool, hit: (Path, Path) -> bool,
                                                star: Path -> Option<Path>, p: Path)
    requires forall p, r :: at(p) && hit(p, r) ==> star(r) == Some(p)
    requires forall r :: star(r).Some? ==> star(r).value <= r
    requires at(p) && p !in Nodes(ws)
    ensures WeightAt(ws, hit, p) == 0
  {
    if ws != [] {
      OutsideWeighsNothing(ws[..|ws| - 1], at, hit, star, p);
    }
  }

  // ------------------------------------------------------------------------- the children

  ghost function ChildOf(p: Path): Path -> bool { (q: Path) => |q| == |p| + 1 && p <= q }

  ghost function Strictly(p: Path): Path -> bool { (r: Path) => p < r }

  lemma {:induction false} ThroughSplits(ws: seq<Weighted>, p: Path)
    ensures WeightAt(ws, Through(), p) == WeightAt(ws, Ending(), p) + WeightOf(ws, Strictly(p))
  {
    if ws != [] {
      ThroughSplits(ws[..|ws| - 1], p);
    }
  }

  /** A node weighs as much as its children together, plus what ends at it. */
  lemma NodeIsChildrenPlusEnding(ws: seq<Weighted>, p: Path)
    ensures WeightAt(ws, Through(), p)
         == MapSum(Weights(ws, ChildOf(p), Through())) + WeightAt(ws, Ending(), p)
  {
    var star := (r: Path) => if p < r then Some(r[..|p| + 1]) else None;
    forall q, r | ChildOf(p)(q) && Through()(q, r) ensures star(r) == Some(q) {
      assert r[..|p| + 1] == q;
    }
    CountOnce(ws, ChildOf(p), Through(), star, Strictly(p));
    ThroughSplits(ws, p);
  }

  // ------------------------------------------------------------------------ the addresses

  /** The node at `p` is for address `a` and no node above it is. */
  predicate Topmost(p: Path, a: Addr) {
    p != [] && p[|p| - 1] == a && forall j :: 0 <= j < |p| - 1 ==> p[j] != a
  }

  ghost function TopmostFor(a: Addr): Path -> bool { (p: Path) => Topmost(p, a) }

  /** Length of the prefix that ends in the first `a`; 0 when there is none. */
  function FirstUse(r: Path, a: Addr): (k: nat)
    ensures k <= |r| && (k == 0 <==> a !in r)
    ensures k > 0 ==> Topmost(r[..k], a)
  {
    if r == [] then 0
    else
      var k := FirstUse(r[..|r| - 1], a);
      assert k > 0 ==> r[..|r| - 1][..k] == r[..k];
      assert r == r[..|r| - 1] + [r[|r| - 1]];
      if k > 0 then k else if r[|r| - 1] == a then |r| else 0
  }

  lemma TopmostIsFirstUse(p: Path, r: Path, a: Addr)
    requires p <= r && Topmost(p, a)
    ensures p == r[..FirstUse(r, a)]
  {
    var k := FirstUse(r, a);
    assert r[|p| - 1] == a;
    assert r[..k][k - 1] == a && forall j :: 0 <= j < k - 1 ==> r[..k][j] == r[j] != a;
    assert k == |p|;
  }

  /** An address weighs as much as its topmost nodes together. */
  lemma AddressIsTopmostNodes(ws: seq<Weighted>, a: Addr)
    ensures MapSum(Weights(ws, TopmostFor(a), Through())) == WeightOf(ws, Mentions(a))
  {
    var star := (r: Path) => if a in r then Some(r[..FirstUse(r, a)]) else None;
    forall p, r | TopmostFor(a)(p) && Through()(p, r) ensures star(r) == Some(p) {
      TopmostIsFirstUse(p, r, a);
    }
    CountOnce(ws, TopmostFor(a), Through(), star, Mentions(a));
  }

  /** What ends at the nodes of an address is what ends in that address. */
  lemma LeafIsEndingNodes(ws: seq<Weighted>, a: Addr)
    ensures MapSum(Weights(ws, LeafIs(a), Ending())) == WeightOf(ws, LeafIs(a))
  {
    var star := (r: Path) => if LeafIs(a)(r) then Some(r) else None;
    CountOnce(ws, LeafIs(a), Ending(), star, LeafIs(a));
  }

  // -------------------------------------------------- the same laws, read off a node table

  /** The topmost entries for `a`: no node above them is for `a` as well. */
  ghost function TopmostOf(w: map<Path, int>, a: Addr): map<Path, int> {
    map p | p in w && Topmost(p, a) :: w[p]
  }

  ghost function ChildrenOf(w: map<Path, int>, p: Path): map<Path, int> {
    map q | q in w && |q| == |p| + 1 && p <= q :: w[q]
  }

  /** For every node for `a`, its entry minus what its children account for. */
  ghost function OwnOf(w: map<Path, int>, a: Addr): map<Path, int> {
    map p | p in w && p != [] && p[|p| - 1] == a :: w[p] - MapSum(ChildrenOf(w, p))
  }

  /** `w` has every node of `ws`, and is right about those whose path goes through `a`. */
  ghost predicate RightAbout(w: map<Path, int>, ws: seq<Weighted>, a: Addr) {
    w.Keys == Nodes(ws) && forall p :: p in w && a in p ==> w[p] == WeightAt(ws, Through(), p)
  }

  lemma TopmostOfSum(w: map<Path, int>, ws: seq<Weighted>, a: Addr)
    requires RightAbout(w, ws, a)
    ensures MapSum(TopmostOf(w, a)) == WeightOf(ws, Mentions(a))
  {
    AddressIsTopmostNodes(ws, a);
    assert TopmostOf(w, a) == Weights(ws, TopmostFor(a), Through());
  }

  lemma ChildrenOfSum(w: map<Path, int>, ws: seq<Weighted>, p: Path)
    requires w.Keys == Nodes(ws)
    requires forall q :: q in w && ChildOf(p)(q) ==> w[q] == WeightAt(ws, Through(), q)
    ensures MapSum(ChildrenOf(w, p)) + WeightAt(ws, Ending(), p) == WeightAt(ws, Through(), p)
  {
    hide MapSum, WeightAt, Nodes;
    NodeIsChildrenPlusEnding(ws, p);
    assert ChildrenOf(w, p) == Weights(ws, ChildOf(p), Through());
  }

  lemma OwnOfSum(w: map<Path, int>, ws: seq<Weighted>, a: Addr)
    requires RightAbout(w, ws, a)
    ensures MapSum(OwnOf(w, a)) == WeightOf(ws, LeafIs(a))
  {
    hide MapSum, WeightOf, WeightAt, ChildrenOf, Nodes, RightAbout;
    LeafIsEndingNodes(ws, a);
    HasItsNodes(w, ws, a);
    forall p | p in w && p != [] && p[|p| - 1] == a
      ensures w[p] - MapSum(ChildrenOf(w, p)) == WeightAt(ws, Ending(), p)
    {
      OwnEntry(w, ws, a, p);
    }
    assert OwnOf(w, a) == Weights(ws, LeafIs(a), Ending());
  }

  lemma HasItsNodes(w: map<Path, int>, ws: seq<Weighted>, a: Addr)
    requires RightAbout(w, ws, a)
    ensures w.Keys == Nodes(ws)
  {
  }

  lemma OwnEntry(w: map<Path, int>, ws: seq<Weighted>, a: Addr, p: Path)
    requires RightAbout(w, ws, a) && p in w && a in p
    ensures w[p] - MapSum(ChildrenOf(w, p)) == WeightAt(ws, Ending(), p)
  {
    hide MapSum, Nodes, WeightOf;
    ChildrenOfSum(w, ws, p);
  }

  lemma {:induction false} NodeWithinAddress(ws: seq<Weighted>, p: Path, a: Addr)
    requires a in p
    ensures WeightAt(ws, Through(), p) <= WeightOf(ws, Mentions(a))
  {
    if ws != [] {
      NodeWithinAddress(ws[..|ws| - 1], p, a);
    }
  }

  lemma {:induction false} LeafWithinAddress(ws: seq<Weighted>, a: Addr)
    ensures WeightOf(ws, LeafIs(a)) <= WeightOf(ws, Mentions(a))
  {
    if ws != [] {
      LeafWithinAddress(ws[..|ws| - 1], a);
    }
  }
}
