/**
 The per-address table behind the top-N view is built beside the call tree, from the same
 credits but by a separate walk. This module states what each entry means in terms of the
 tree: the two summaries of a capture agree, also for recursive stacks.
 */
module TopTable {
  import opened Numbers
  import opened Options
  import opened Sums
  import opened CallTrie
  import opened PathSums

  /** `total.kind` is the entry's one target-kind slot; `own.kind` is not used. */
  datatype AddressStats = AddressStats(own: Tally, total: Tally)

  type Table = map<Addr, AddressStats>

  function Stats(m: Table, a: Addr): AddressStats {
    if a in m then m[a] else AddressStats(ZERO, ZERO)
  }

  function CreditLeaf(m: Table, a: Addr, delta: Tally): Table {
    var s := Stats(m, a);
    m[a := AddressStats(Plus(s.own, delta.(kind := None)),
                        s.total.(kind := SetTargetKind(s.total.kind, delta.kind)))]
  }

  function CreditTotal(m: Table, a: Addr, delta: Tally): Table {
    m[a := Stats(m, a).(total := Plus(Stats(m, a).total, delta))]
  }

  /** Credit the first `k` frames, each address at its first occurrence only. */
  function TotalsUpTo(m: Table, stack: seq<Addr>, k: nat, delta: Tally): Table
    requires k <= |stack|
  {
    if k == 0 then m
    else if stack[k - 1] in stack[..k - 1] then TotalsUpTo(m, stack, k - 1, delta)
    else CreditTotal(TotalsUpTo(m, stack, k - 1, delta), stack[k - 1], delta)
  }

  function CreditTable(m: Table, stack: seq<Addr>, delta: Tally): Table {
    if stack == [] then m
    else TotalsUpTo(CreditLeaf(m, stack[0], delta), stack, |stack|, delta)
  }

  function BuildTable(cs: seq<Credit>): Table {
    if cs == [] then map[]
    else CreditTable(BuildTable(cs[..|cs| - 1]), cs[|cs| - 1].stack, cs[|cs| - 1].delta)
  }

  // ------------------------------------------------- credits as weighted paths, per counter

  /** The credits seen through one counter, with nothing lost to saturation. */
  ghost function Project(cs: seq<Credit>, c: Counter): (ws: seq<Weighted>)
    ensures |ws| == |cs|
  {
    if cs == [] then []
    else
      var last := cs[|cs| - 1];
      Project(cs[..|cs| - 1], c) + [Weighted(PathOf(last), Count(last.delta, c))]
  }

  /** The true, unbounded sums behind the u64 counters. */
  ghost function NodeSum(cs: seq<Credit>, p: Path, c: Counter): nat { WeightAt(Project(cs, c), Through(), p) }
  ghost function TotalSum(cs: seq<Credit>, a: Addr, c: Counter): nat { WeightOf(Project(cs, c), Mentions(a)) }
  ghost function OwnSum(cs: seq<Credit>, a: Addr, c: Counter): nat { WeightOf(Project(cs, c), LeafIs(a)) }

  /** Every node's counter is the true sum of its credits, capped at the largest u64. */
  lemma {:induction false} NodeCounter(cs: seq<Credit>, p: Path, c: Counter)
    ensures p != [] ==> Count(At(Build(cs), p), c) == Min(U64_MAX, NodeSum(cs, p, c))
  {
    BuildTally(cs, p);
    SumAtCounter(cs, p, c);
  }

  lemma {:induction false} SumAtCounter(cs: seq<Credit>, p: Path, c: Counter)
    ensures Count(SumAt(cs, p), c) == Min(U64_MAX, NodeSum(cs, p, c))
  {
    if cs != [] {
      var front, last := cs[..|cs| - 1], cs[|cs| - 1];
      SumAtCounter(front, p, c);
      PlusCounts(SumAt(front, p), last.delta, c);
      assert Project(cs, c)[..|cs| - 1] == Project(front, c);
    }
  }

  lemma {:induction false} TotalsUpToPointwise(m: Table, stack: seq<Addr>, k: nat, delta: Tally, a: Addr)
    requires k <= |stack|
    ensures Stats(TotalsUpTo(m, stack, k, delta), a)
         == if a in stack[..k] then Stats(m, a).(total := Plus(Stats(m, a).total, delta)) else Stats(m, a)
  {
    if k > 0 {
      TotalsUpToPointwise(m, stack, k - 1, delta, a);
      assert stack[..k] == stack[..k - 1] + [stack[k - 1]];
    }
  }

  lemma CreditTablePointwise(m: Table, stack: seq<Addr>, delta: Tally, a: Addr, c: Counter)
    ensures var s, s' := Stats(m, a), Stats(CreditTable(m, stack, delta), a);
            && Count(s'.total, c) == SatAdd(Count(s.total, c), if a in stack then Count(delta, c) else 0)
            && Count(s'.own, c) == SatAdd(Count(s.own, c), if stack != [] && stack[0] == a then Count(delta, c) else 0)
  {
    if stack != [] {
      var s, m1 := Stats(m, a), CreditLeaf(m, stack[0], delta);
      TotalsUpToPointwise(m1, stack, |stack|, delta, a);
      assert stack[..|stack|] == stack;
      PlusCounts(s.own, delta.(kind := None), c);
      CountIgnoresKind(delta, None, c);
      CountIgnoresKind(s.total, SetTargetKind(s.total.kind, delta.kind), c);
      PlusCounts(Stats(m1, a).total, delta, c);
    }
  }

  lemma CountIgnoresKind(t: Tally, kind: Option<LaneKind>, c: Counter)
    ensures Count(t.(kind := kind), c) == Count(t, c)
  {
  }

  lemma ReversedStack(stack: seq<Addr>, a: Addr)
    ensures Mentions(a)(Reverse(stack)) <==> a in stack
    ensures LeafIs(a)(Reverse(stack)) <==> stack != [] && stack[0] == a
  {
    var r := Reverse(stack);
    if a in r {
      var i :| 0 <= i < |r| && r[i] == a;
      assert stack[|r| - 1 - i] == a;
    }
    if a in stack {
      var i :| 0 <= i < |stack| && stack[i] == a;
      assert r[|stack| - 1 - i] == a;
    }
  }

  lemma SumsOneMore(cs: seq<Credit>, a: Addr, c: Counter)
    requires cs != []
    ensures var front, last := cs[..|cs| - 1], cs[|cs| - 1];
            && TotalSum(cs, a, c) == TotalSum(front, a, c) + (if a in last.stack then Count(last.delta, c) else 0)
            && OwnSum(cs, a, c)
               == OwnSum(front, a, c) + (if last.stack != [] && last.stack[0] == a then Count(last.delta, c) else 0)
  {
    hide Count, Mentions, LeafIs;
    var front, last := cs[..|cs| - 1], cs[|cs| - 1];
    assert Project(cs, c)[..|cs| - 1] == Project(front, c);
    ReversedStack(last.stack, a);
  }

  /** Every table counter is the true sum of the credits it is about, capped at the largest u64. */
  lemma {:induction false} TableCounter(cs: seq<Credit>, a: Addr, c: Counter)
    ensures Count(Stats(BuildTable(cs), a).total, c) == Min(U64_MAX, TotalSum(cs, a, c))
    ensures Count(Stats(BuildTable(cs), a).own, c) == Min(U64_MAX, OwnSum(cs, a, c))
  {
    hide Count, CreditTable, Stats, TotalSum, OwnSum, SatAdd, Min;
    if cs == [] {
      NothingCounted(a, c);
    } else {
      var front, last := cs[..|cs| - 1], cs[|cs| - 1];
      assert BuildTable(cs) == CreditTable(BuildTable(front), last.stack, last.delta);
      hide BuildTable;
      TableCounter(front, a, c);
      CreditTablePointwise(BuildTable(front), last.stack, last.delta, a, c);
      SumsOneMore(cs, a, c);
      var d := Count(last.delta, c);
      CappedSum(TotalSum(front, a, c), if a in last.stack then d else 0);
      CappedSum(OwnSum(front, a, c), if last.stack != [] && last.stack[0] == a then d else 0);
    }
  }

  lemma NothingCounted(a: Addr, c: Counter)
    ensures Count(Stats(BuildTable([]), a).total, c) == Min(U64_MAX, TotalSum([], a, c))
    ensures Count(Stats(BuildTable([]), a).own, c) == Min(U64_MAX, OwnSum([], a, c))
  {
  }

  lemma CappedSum(sum: nat, d: U64)
    ensures SatAdd(Min(U64_MAX, sum), d) == Min(U64_MAX, sum + d)
  {
  }

  // ------------------------------------------------------------------ the table and the tree

  lemma {:induction false} BuildNodes(cs: seq<Credit>, c: Counter)
    ensures Build(cs).Keys == Nodes(Project(cs, c))
  {
    if cs != [] {
      var front, last := cs[..|cs| - 1], cs[|cs| - 1];
      BuildNodes(front, c);
      assert Project(cs, c)[..|cs| - 1] == Project(front, c);
      forall p ensures p in Build(cs) <==> p in Nodes(Project(cs, c)) {
        CreditUpToKeys(Build(front), PathOf(last), |PathOf(last)|, last.delta, p);
        BuildKeys(front, []);
      }
    }
  }

  /** Counter `c` of every node of the tree. */
  ghost function NodeCounts(t: Trie, c: Counter): map<Path, int> {
    map p | p in t :: Count(t[p], c)
  }

  lemma NodeCountsRight(cs: seq<Credit>, a: Addr, c: Counter)
    requires TotalSum(cs, a, c) <= U64_MAX
    ensures RightAbout(NodeCounts(Build(cs), c), Project(cs, c), a)
  {
    BuildNodes(cs, c);
    forall p | p in Build(cs) && a in p
      ensures Count(Build(cs)[p], c) == WeightAt(Project(cs, c), Through(), p)
    {
      NodeCounter(cs, p, c);
      NodeWithinAddress(Project(cs, c), p, a);
    }
  }

  /**
   The totals agree: unless it saturated, an address's total is the sum over the tree's
   nodes for that address that have no ancestor for it.
   */
  lemma TotalAgreesWithTree(cs: seq<Credit>, a: Addr, c: Counter)
    requires TotalSum(cs, a, c) <= U64_MAX
    ensures Count(Stats(BuildTable(cs), a).total, c) == MapSum(TopmostOf(NodeCounts(Build(cs), c), a))
  {
    TableCounter(cs, a, c);
    NodeCountsRight(cs, a, c);
    TopmostOfSum(NodeCounts(Build(cs), c), Project(cs, c), a);
  }

  /**
   The selves agree: unless the address's total saturated, its self counter is the sum, over
   all the tree's nodes for that address, of the node's counter minus its children's.
   */
  lemma OwnAgreesWithTree(cs: seq<Credit>, a: Addr, c: Counter)
    requires TotalSum(cs, a, c) <= U64_MAX
    ensures Count(Stats(BuildTable(cs), a).own, c) == MapSum(OwnOf(NodeCounts(Build(cs), c), a))
  {
    TableCounter(cs, a, c);
    NodeCountsRight(cs, a, c);
    OwnOfSum(NodeCounts(Build(cs), c), Project(cs, c), a);
    LeafWithinAddress(Project(cs, c), a);
  }
}
