/**
 The call tree as it is kept in memory: nodes that own their children and are updated in
 place while a stack is walked from the caller-most frame to the leaf. Each operation is
 proved against its effect on the tree as a value (`CallTrie`).
 */
module StackTree {
  import opened Numbers
  import opened Options
  import opened CallTrie

  class StackNode {
    var counters: Tally
    var children: map<Addr, StackNode>
    ghost const path: Path  // from the root to this node

    constructor (ghost path: Path)
      ensures counters == ZERO && children == map[] && this.path == path
    {
      this.path := path;
      counters, children := ZERO, map[];
    }

    method AddOnCpu(ns: U64, sample: Pmc, isTarget: bool, kind: Option<LaneKind>)
      modifies `counters
      ensures counters == Plus(old(counters), OnCpuDelta(ns, sample, isTarget, kind))
    {
      counters := counters.(onCpuNs := SatAdd(counters.onCpuNs, ns),
                            petSamples := SatAdd(counters.petSamples, 1));
      if isTarget {
        counters := counters.(targetNs := SatAdd(counters.targetNs, ns),
                              targetSpans := SatAdd(counters.targetSpans, 1),
                              kind := SetTargetKind(counters.kind, kind));
      }
      counters := counters.(pmc := counters.pmc.Add(sample));
    }

    method AddOffCpu(reason: Reason, ns: U64)
      modifies `counters
      ensures counters == Plus(old(counters), OffCpuDelta(reason, ns))
    {
      counters := counters.(offCpu := counters.offCpu.AddReason(reason, ns),
                            offCpuIntervals := SatAdd(counters.offCpuIntervals, 1));
    }
  }

  type Nodes = map<Path, StackNode>

  function Parent(q: Path): Path
    requires q != []
  {
    q[..|q| - 1]
  }

  /** `at` lists every node under its own path, and children are linked exactly to the next steps. */
  ghost predicate IsTree(at: Nodes)
    reads at.Values
  {
    && [] in at
    && (forall p :: p in at ==> at[p].path == p)
    && (forall p, a :: p in at && a in at[p].children ==> p + [a] in at && at[p + [a]] == at[p].children[a])
    && (forall q {:trigger Parent(q)} :: q in at && q != [] ==>
          Parent(q) in at && q[|q| - 1] in at[Parent(q)].children)
  }

  /** The tree as a value. */
  ghost function View(at: Nodes): Trie
    reads at.Values
  {
    map p | p in at :: at[p].counters
  }

  /** The child for `a`, made if it is missing. */
  method ChildOrDefault(node: StackNode, a: Addr, ghost at: Nodes, ghost p: Path)
    returns (child: StackNode, ghost at': Nodes)
    requires IsTree(at) && p in at && at[p] == node
    modifies node`children
    ensures IsTree(at') && p + [a] in at' && at'[p + [a]] == child
    ensures p + [a] in at ==> at' == at
    ensures p + [a] !in at ==> fresh(child) && at' == at[p + [a] := child]
    ensures fresh(at'.Values - at.Values) && forall q :: q in at ==> q in at' && at'[q] == at[q]
    ensures View(at') == if p + [a] in at then old(View(at)) else old(View(at))[p + [a] := ZERO]
  {
    at' := at;
    ghost var q := p + [a];
    assert Parent(q) == p && q[|q| - 1] == a;
    if a in node.children {
      child := node.children[a];
    } else {
      child, at' := NewChild(node, a, at, p);
    }
  }

  method NewChild(node: StackNode, a: Addr, ghost at: Nodes, ghost p: Path) returns (child: StackNode, ghost at': Nodes)
    requires IsTree(at) && p in at && at[p] == node && a !in node.children
    modifies node`children
    ensures IsTree(at') && p + [a] !in at && fresh(child) && at' == at[p + [a] := child]
    ensures View(at') == old(View(at))[p + [a] := ZERO]
  {
    ghost var q := p + [a];
    assert Parent(q) == p && q[|q| - 1] == a;
    assert q !in at;
    child := new StackNode(q);
    node.children := node.children[a := child];
    at' := at[q := child];
    assert View(at') == old(View(at))[q := ZERO];
    forall r, b | r in at' && b in at'[r].children ensures r + [b] in at' && at'[r + [b]] == at'[r].children[b] {
      LastStep(r, b, p, a);
    }
  }

  lemma LastStep(r: Path, b: Addr, p: Path, a: Addr)
    ensures r + [b] == p + [a] ==> r == p && b == a
  {
    assert Parent(r + [b]) == r && (r + [b])[|r|] == b;
    assert Parent(p + [a]) == p && (p + [a])[|p|] == a;
  }

  /** `AddOnCpu` seen from the tree: one entry changes. */
  method CreditNodeOnCpu(node: StackNode, ns: U64, sample: Pmc, isTarget: bool, kind: Option<LaneKind>,
                         ghost at: Nodes, ghost p: Path)
    requires IsTree(at) && p in at && at[p] == node
    modifies node`counters
    ensures IsTree(at)
    ensures View(at) == old(View(at))[p := Plus(old(View(at))[p], OnCpuDelta(ns, sample, isTarget, kind))]
  {
    hide Plus, OnCpuDelta;
    node.AddOnCpu(ns, sample, isTarget, kind);
  }

  /** One step down the tree: the child for `a`, made if missing, is credited. */
  method CreditChildOnCpu(node: StackNode, a: Addr, ns: U64, sample: Pmc, isTarget: bool, kind: Option<LaneKind>,
                          ghost at: Nodes, ghost p: Path)
    returns (child: StackNode, ghost at': Nodes)
    requires IsTree(at) && p in at && at[p] == node
    modifies at.Values
    ensures IsTree(at') && p + [a] in at' && at'[p + [a]] == child
    ensures forall q :: q in at ==> q in at' && at'[q] == at[q]
    ensures fresh(at'.Values - at.Values)
    ensures View(at') == old(View(at))[p + [a] := Plus(At(old(View(at)), p + [a]), OnCpuDelta(ns, sample, isTarget, kind))]
  {
    hide IsTree, Plus, OnCpuDelta;
    child, at' := ChildOrDefault(node, a, at, p);
    CreditNodeOnCpu(child, ns, sample, isTarget, kind, at', p + [a]);
  }

  /** Credit on-CPU time to every node along a leaf-first stack, from the root down. */
  method CreditOnCpuToTree(root: StackNode, ghost at: Nodes, stack: seq<Addr>, ns: U64, sample: Pmc,
                           isTarget: bool, kind: Option<LaneKind>)
    returns (ghost at': Nodes)
    requires IsTree(at) && [] in at && at[[]] == root
    modifies at.Values
    ensures IsTree(at') && [] in at' && at'[[]] == root && fresh(at'.Values - at.Values)
    ensures View(at') == CreditPath(old(View(at)), Reverse(stack), OnCpuDelta(ns, sample, isTarget, kind))
  {
    hide IsTree, Plus, OnCpuDelta;
    at' := at;
    ghost var path, delta := Reverse(stack), OnCpuDelta(ns, sample, isTarget, kind);
    var node := root;
    var i := |stack|;
    while i > 0
      invariant 0 <= i <= |stack|
      invariant IsTree(at') && path[..|stack| - i] in at' && at'[path[..|stack| - i]] == node
      invariant [] in at' && at'[[]] == root
      invariant fresh(at'.Values - at.Values)
      invariant View(at') == CreditUpTo(old(View(at)), path, |stack| - i, delta)
    {
      i := i - 1;
      ghost var k := |stack| - i;
      assert path[..k] == path[..k - 1] + [stack[i]];
      node, at' := CreditChildOnCpu(node, stack[i], ns, sample, isTarget, kind, at', path[..k - 1]);
    }
    assert path[..|stack|] == path;
  }

  method CreditNodeOffCpu(node: StackNode, reason: Reason, ns: U64, ghost at: Nodes, ghost p: Path)
    requires IsTree(at) && p in at && at[p] == node
    modifies node`counters
    ensures IsTree(at)
    ensures View(at) == old(View(at))[p := Plus(old(View(at))[p], OffCpuDelta(reason, ns))]
  {
    hide Plus, OffCpuDelta;
    node.AddOffCpu(reason, ns);
  }

  method CreditChildOffCpu(node: StackNode, a: Addr, reason: Reason, ns: U64, ghost at: Nodes, ghost p: Path)
    returns (child: StackNode, ghost at': Nodes)
    requires IsTree(at) && p in at && at[p] == node
    modifies at.Values
    ensures IsTree(at') && p + [a] in at' && at'[p + [a]] == child
    ensures forall q :: q in at ==> q in at' && at'[q] == at[q]
    ensures fresh(at'.Values - at.Values)
    ensures View(at') == old(View(at))[p + [a] := Plus(At(old(View(at)), p + [a]), OffCpuDelta(reason, ns))]
  {
    hide IsTree, Plus, OffCpuDelta;
    child, at' := ChildOrDefault(node, a, at, p);
    CreditNodeOffCpu(child, reason, ns, at', p + [a]);
  }

  /** Credit off-CPU time to every node along a leaf-first stack, from the root down. */
  method CreditOffCpuToTree(root: StackNode, ghost at: Nodes, stack: seq<Addr>, reason: Reason, ns: U64)
    returns (ghost at': Nodes)
    requires IsTree(at) && [] in at && at[[]] == root
    modifies at.Values
    ensures IsTree(at') && [] in at' && at'[[]] == root && fresh(at'.Values - at.Values)
    ensures View(at') == CreditPath(old(View(at)), Reverse(stack), OffCpuDelta(reason, ns))
  {
    hide IsTree, Plus, OffCpuDelta;
    at' := at;
    ghost var path, delta := Reverse(stack), OffCpuDelta(reason, ns);
    var node := root;
    var i := |stack|;
    while i > 0
      invariant 0 <= i <= |stack|
      invariant IsTree(at') && path[..|stack| - i] in at' && at'[path[..|stack| - i]] == node
      invariant [] in at' && at'[[]] == root
      invariant fresh(at'.Values - at.Values)
      invariant View(at') == CreditUpTo(old(View(at)), path, |stack| - i, delta)
    {
      i := i - 1;
      ghost var k := |stack| - i;
      assert path[..k] == path[..k - 1] + [stack[i]];
      node, at' := CreditChildOffCpu(node, stack[i], reason, ns, at', path[..k - 1]);
    }
    assert path[..|stack|] == path;
  }

  // ------------------------------------------------------------------------------- merging

  /** `t` after the nodes of `u` at the paths in `s` have been added to it. */
  ghost function MergeOn(t: Trie, u: Trie, s: set<Path>): Trie {
    map q | q in t.Keys + u.Keys * s :: if q in u && q in s then Plus(At(t, q), u[q]) else t[q]
  }

  ghost function Below(u: Trie, p: Path): set<Path> {
    set q | q in u && p <= q
  }

  /** The node at `p` and everything under its children for `done`. */
  ghost function BelowChildren(u: Trie, p: Path, done: set<Addr>): set<Path> {
    set q | q in u && p <= q && (|p| < |q| ==> q[|p|] in done)
  }

  lemma {:induction false} PrefixInTree(at: Nodes, q: Path, k: nat)
    requires IsTree(at) && q in at && k < |q|
    ensures q[..k] in at && q[k] in at[q[..k]].children
    decreases |q|
  {
    var p := Parent(q);
    if k < |p| {
      PrefixInTree(at, p, k);
      assert p[..k] == q[..k];
    }
  }

  lemma MergeOnTwice(t: Trie, u: Trie, s1: set<Path>, s2: set<Path>)
    requires s1 !! s2
    ensures MergeOn(MergeOn(t, u, s1), u, s2) == MergeOn(t, u, s1 + s2)
  {
    hide Plus;
  }

  lemma MergeOnDefault(t: Trie, u: Trie, s: set<Path>, q: Path)
    requires q in s && q in u && q !in t
    ensures MergeOn(t[q := ZERO], u, s) == MergeOn(t, u, s)
  {
    hide Plus;
  }

  lemma BelowOneMore(u: Trie, p: Path, done: set<Addr>, a: Addr)
    requires a !in done
    ensures BelowChildren(u, p, done) !! Below(u, p + [a])
    ensures BelowChildren(u, p, done) + Below(u, p + [a]) == BelowChildren(u, p, done + {a})
  {
    forall q ensures p + [a] <= q <==> p <= q && |p| < |q| && q[|p|] == a {
    }
  }

  lemma MergeOneMore(t: Trie, u: Trie, p: Path, done: set<Addr>, a: Addr)
    requires a !in done
    ensures MergeOn(MergeOn(t, u, BelowChildren(u, p, done)), u, Below(u, p + [a]))
         == MergeOn(t, u, BelowChildren(u, p, done + {a}))
  {
    BelowOneMore(u, p, done, a);
    MergeOnTwice(t, u, BelowChildren(u, p, done), Below(u, p + [a]));
  }

  lemma MergeOnSelf(t: Trie, u: Trie, p: Path)
    requires p in t && p in u
    ensures MergeOn(t, u, BelowChildren(u, p, {})) == t[p := Plus(t[p], u[p])]
  {
    hide Plus;
    assert forall q :: q in u && p <= q && |q| == |p| ==> q == p;
  }

  lemma BelowAll(at: Nodes, p: Path)
    requires IsTree(at) && p in at
    ensures BelowChildren(View(at), p, at[p].children.Keys) == Below(View(at), p)
  {
    forall q | q in at && p <= q && |p| < |q| ensures q[|p|] in at[p].children {
      PrefixInTree(at, q, |p|);
      assert q[..|p|] == p;
    }
  }

  /** Add the tree of `other`, which is `u`, into the tree of `node`, node for node, children made as needed. */
  method Merge(node: StackNode, other: StackNode, ghost at: Nodes, ghost otherAt: Nodes, ghost p: Path, ghost depth: nat,
               ghost u: Trie)
    returns (ghost at': Nodes)
    requires IsTree(at) && p in at && at[p] == node
    requires IsTree(otherAt) && p in otherAt && otherAt[p] == other && View(otherAt) == u
    requires at.Values !! otherAt.Values && forall q :: q in otherAt ==> |q| <= depth
    modifies at.Values
    decreases depth - |p|, 2
    ensures IsTree(at') && fresh(at'.Values - at.Values)
    ensures forall q :: q in at ==> q in at' && at'[q] == at[q]
    ensures View(at') == MergeOn(old(View(at)), u, Below(u, p))
  {
    hide IsTree, Plus, MergeOn, Below, BelowChildren;
    ghost var t := View(at);
    MergeNode(node, other, at, p);
    MergeOnSelf(t, u, p);
    at' := MergeChildren(node, other, at, otherAt, p, depth, t, u);
  }

  /** The loop over the children of `other`; `t` is the tree before its node was added. */
  method MergeChildren(node: StackNode, other: StackNode, ghost at: Nodes, ghost otherAt: Nodes, ghost p: Path,
                       ghost depth: nat, ghost t: Trie, ghost u: Trie)
    returns (ghost at': Nodes)
    requires IsTree(at) && p in at && at[p] == node
    requires IsTree(otherAt) && p in otherAt && otherAt[p] == other && View(otherAt) == u
    requires at.Values !! otherAt.Values && forall q :: q in otherAt ==> |q| <= depth
    requires View(at) == MergeOn(t, u, BelowChildren(u, p, {}))
    modifies at.Values
    decreases depth - |p|, 1
    ensures IsTree(at') && fresh(at'.Values - at.Values)
    ensures forall q :: q in at ==> q in at' && at'[q] == at[q]
    ensures View(at') == MergeOn(t, u, Below(u, p))
  {
    hide IsTree, Plus, MergeOn, Below, BelowChildren;
    at' := at;
    var all := other.children;
    var todo := all.Keys;
    assert all.Keys - todo == {};
    BelowAll(otherAt, p);
    while todo != {}
      invariant todo <= all.Keys
      invariant IsTree(at') && fresh(at'.Values - at.Values)
      invariant forall q :: q in at ==> q in at' && at'[q] == at[q]
      invariant View(at') == MergeOn(t, u, BelowChildren(u, p, all.Keys - todo))
    {
      var a :| a in todo;
      ghost var done := all.Keys - todo;
      at' := MergeChild(node, a, all[a], at', otherAt, p, depth, t, u, done);
      todo := todo - {a};
      assert all.Keys - todo == done + {a};
    }
    assert all.Keys - todo == all.Keys;
  }

  method MergeChild(node: StackNode, a: Addr, otherChild: StackNode, ghost at: Nodes, ghost otherAt: Nodes,
                    ghost p: Path, ghost depth: nat, ghost t: Trie, ghost u: Trie, ghost done: set<Addr>)
    returns (ghost at': Nodes)
    requires IsTree(at) && p in at && at[p] == node
    requires IsTree(otherAt) && p in otherAt && a in otherAt[p].children && otherAt[p].children[a] == otherChild
    requires View(otherAt) == u
    requires at.Values !! otherAt.Values && forall q :: q in otherAt ==> |q| <= depth
    requires a !in done && View(at) == MergeOn(t, u, BelowChildren(u, p, done))
    modifies at.Values
    decreases depth - |p|, 0
    ensures IsTree(at') && fresh(at'.Values - at.Values)
    ensures forall q :: q in at ==> q in at' && at'[q] == at[q]
    ensures View(at') == MergeOn(t, u, BelowChildren(u, p, done + {a}))
  {
    hide IsTree, Plus, MergeOn, BelowChildren, Below;
    ChildInTree(otherAt, p, a);
    var child;
    child, at' := ChildOrDefault(node, a, at, p);
    ghost var mid := at';
    ChildMerged(t, u, old(View(at)), View(at'), p, done, a);
    at' := Merge(child, otherChild, at', otherAt, p + [a], depth, u);
    AddedInTwoSteps(at.Values, mid.Values, at'.Values);
  }

  lemma AddedInTwoSteps<T>(a: set<T>, b: set<T>, c: set<T>)
    ensures c - a <= (c - b) + (b - a)
  {
  }

  lemma ChildMerged(t: Trie, u: Trie, v: Trie, m: Trie, p: Path, done: set<Addr>, a: Addr)
    requires a !in done && v == MergeOn(t, u, BelowChildren(u, p, done)) && p + [a] in u
    requires m == if p + [a] in v then v else v[p + [a] := ZERO]
    ensures MergeOn(m, u, Below(u, p + [a])) == MergeOn(t, u, BelowChildren(u, p, done + {a}))
  {
    hide Plus, MergeOn, BelowChildren;
    if p + [a] !in v {
      MergeOnDefault(v, u, Below(u, p + [a]), p + [a]);
    }
    MergeOneMore(t, u, p, done, a);
  }

  lemma ChildInTree(at: Nodes, p: Path, a: Addr)
    requires IsTree(at) && p in at && a in at[p].children
    ensures p + [a] in at && at[p + [a]] == at[p].children[a]
  {
  }

  method MergeNode(node: StackNode, other: StackNode, ghost at: Nodes, ghost p: Path)
    requires IsTree(at) && p in at && at[p] == node
    modifies node`counters
    ensures IsTree(at)
    ensures View(at) == old(View(at))[p := Plus(old(View(at))[p], old(other.counters))]
  {
    var c, o := node.counters, other.counters;
    node.counters := Tally(
      SatAdd(c.onCpuNs, o.onCpuNs), SatAdd(c.targetNs, o.targetNs), c.offCpu.AddOther(o.offCpu),
      SatAdd(c.petSamples, o.petSamples), SatAdd(c.targetSpans, o.targetSpans),
      SatAdd(c.offCpuIntervals, o.offCpuIntervals), c.pmc.Add(o.pmc), SetTargetKind(c.kind, o.kind));
  }

  ghost function MaxLength(ps: set<Path>): (n: nat)
    ensures forall p :: p in ps ==> |p| <= n
  {
    if ps == {} then 0
    else
      var p :| p in ps;
      Max(|p|, MaxLength(ps - {p}))
  }

  /** Merging two whole trees adds them node for node. */
  method MergeRoots(root: StackNode, other: StackNode, ghost at: Nodes, ghost otherAt: Nodes)
    returns (ghost at': Nodes)
    requires IsTree(at) && [] in at && at[[]] == root
    requires IsTree(otherAt) && [] in otherAt && otherAt[[]] == other
    requires at.Values !! otherAt.Values
    modifies at.Values
    ensures IsTree(at') && [] in at' && at'[[]] == root && fresh(at'.Values - at.Values)
    ensures View(at') == MergeTrie(old(View(at)), View(otherAt))
  {
    hide IsTree, Plus;
    ghost var t, u := View(at), View(otherAt);
    at' := Merge(root, other, at, otherAt, [], MaxLength(otherAt.Keys), u);
    assert u.Keys * Below(u, []) == u.Keys;
  }

  /** Merging the trees of two credit lists gives the tree of the lists joined. */
  method MergeBuilt(root: StackNode, other: StackNode, ghost at: Nodes, ghost otherAt: Nodes,
                    ghost cs: seq<Credit>, ghost otherCs: seq<Credit>)
    returns (ghost at': Nodes)
    requires IsTree(at) && [] in at && at[[]] == root && View(at) == Build(cs)
    requires IsTree(otherAt) && [] in otherAt && otherAt[[]] == other && View(otherAt) == Build(otherCs)
    requires at.Values !! otherAt.Values
    modifies at.Values
    ensures IsTree(at') && [] in at' && at'[[]] == root
    ensures View(at') == Build(cs + otherCs)
  {
    hide IsTree, MergeTrie, Build;
    MergeHomomorphism(cs, otherCs);
    at' := MergeRoots(root, other, at, otherAt);
  }
}
