/**
 The threads are visited in a hash map's order. That order does not show: every counter of
 the tree, of the table and of the totals is the capped sum of what each thread alone gives.
 Only the first-wins target kind may depend on it.
 */
module ThreadOrder {
  import opened Numbers
  import opened Options
  import opened Sums
  import opened CallTrie
  import opened TopTable
  import opened Aggregator

  ghost predicate Enumerates(order: seq<U32>, keys: set<U32>) {
    && (forall t :: t in order <==> t in keys)
    && (forall i, j :: 0 <= i < j < |order| ==> order[i] != order[j])
  }

  /** The walk over one thread alone. */
  function ThreadWalk(q: Query, now: U64, threads: map<U32, ThreadStats>, t: U32): Walk
    requires t in threads
  {
    WalkThread(q, t, now, threads[t], START)
  }

  // ------------------------------------------------------------ a walk continues another one

  function AddTotals(a: Totals, b: Totals): Totals {
    Totals(SatAdd(a.onCpuNs, b.onCpuNs), SatAdd(a.targetNs, b.targetNs), SatAdd(a.targetSpans, b.targetSpans),
           a.offCpu.AddOther(b.offCpu))
  }

  /** What `v` has done, on top of what `w` had done before. */
  function After(w: Walk, v: Walk): Walk {
    Walk(v.cursor, w.credits + v.credits, AddTotals(w.totals, v.totals), w.slices + v.slices)
  }

  lemma SpreadAfter(w: Walk, v: Walk, duration: U64, matching: seq<PetSample>)
    ensures Spread(After(w, v), duration, matching) == After(w, Spread(v, duration, matching))
  {
    if matching != [] && duration / |matching| != 0 {
      var cs := SampleCredits(matching, duration / |matching|);
      assert w.credits + v.credits + cs == w.credits + (v.credits + cs);
      var s := Slice(duration, |matching|);
      assert w.slices + v.slices + [s] == w.slices + (v.slices + [s]);
    }
  }

  lemma OneAfter(w: Walk, v: Walk, cs: seq<Credit>, ss: seq<Slice>)
    ensures (w.credits + v.credits) + cs == w.credits + (v.credits + cs)
    ensures (w.slices + v.slices) + ss == w.slices + (v.slices + ss)
  {
  }

  lemma SpanAfter(q: Query, tid: U32, iv: RawInterval, duration: U64, w: Walk, v: Walk)
    requires iv.kind.SyntheticSpan?
    ensures WalkSpan(q, tid, iv, duration, After(w, v)) == After(w, WalkSpan(q, tid, iv, duration, v))
  {
    hide OnCpuDelta;
    OneAfter(w, v, [Credit(TargetLaneStack(iv.kind.stack), OnCpuDelta(duration, NO_PMC, true, Some(iv.kind.laneKind)))],
             [Slice(duration, 1)]);
  }

  lemma ReasonAfter(a: CallTrie.OffCpu, b: CallTrie.OffCpu, reason: Reason, ns: U64)
    ensures a.AddOther(b).AddReason(reason, ns) == a.AddOther(b.AddReason(reason, ns))
  {
  }

  lemma OffCpuAfter(q: Query, tid: U32, iv: RawInterval, duration: U64, w: Walk, v: Walk)
    requires iv.kind.OffCpu?
    ensures WalkOffCpu(q, tid, iv, duration, After(w, v)) == After(w, WalkOffCpu(q, tid, iv, duration, v))
  {
    hide OffCpuDelta, BlockReason, OffCpu.AddReason, OffCpu.AddOther;
    ReasonAfter(w.totals.offCpu, v.totals.offCpu, BlockReason(q, iv.kind.stack), duration);
    OneAfter(w, v, [Credit(iv.kind.stack, OffCpuDelta(BlockReason(q, iv.kind.stack), duration))], []);
  }

  lemma IntervalAfter(q: Query, tid: U32, now: U64, samples: seq<PetSample>, iv: RawInterval, w: Walk, v: Walk)
    requires v.cursor <= |samples|
    ensures WalkInterval(q, tid, now, samples, iv, After(w, v)) == After(w, WalkInterval(q, tid, now, samples, iv, v))
  {
    hide WalkSpan, WalkOffCpu, Spread;
    var duration := DurationOf(iv, now);
    match iv.kind
    case OnCpu =>
      var cursor := AdvanceCursor(samples, v.cursor, iv.startNs);
      SpreadAfter(w, v.(cursor := cursor), duration, Matching(q, tid, samples, cursor, EndOf(iv, now)));
    case SyntheticSpan(_, _, _) => SpanAfter(q, tid, iv, duration, w, v);
    case OffCpu(_, _, _) => OffCpuAfter(q, tid, iv, duration, w, v);
  }

  lemma {:induction false} IntervalsAfter(q: Query, tid: U32, now: U64, stats: ThreadStats, n: nat, w: Walk, v: Walk)
    requires n <= |stats.intervals| && v.cursor <= |stats.petSamples|
    ensures WalkIntervals(q, tid, now, stats, n, After(w, v)) == After(w, WalkIntervals(q, tid, now, stats, n, v))
  {
    if n > 0 {
      hide WalkInterval, After;
      IntervalsAfter(q, tid, now, stats, n - 1, w, v);
      IntervalAfter(q, tid, now, stats.petSamples, stats.intervals[n - 1], w, WalkIntervals(q, tid, now, stats, n - 1, v));
    }
  }

  /** A thread adds to the walk what it gives alone. */
  lemma ThreadAfter(q: Query, now: U64, threads: map<U32, ThreadStats>, t: U32, w: Walk)
    requires t in threads
    ensures WalkThread(q, t, now, threads[t], w) == After(w, ThreadWalk(q, now, threads, t))
  {
    assert After(w, START) == w.(cursor := 0);
    IntervalsAfter(q, t, now, threads[t], |threads[t].intervals|, w, START);
  }

  // --------------------------------------------------------------------- capped sums over threads

  function SumSeq(order: seq<U32>, m: map<U32, int>): int
    requires forall t :: t in order ==> t in m
  {
    if order == [] then 0 else SumSeq(order[..|order| - 1], m) + m[order[|order| - 1]]
  }

  lemma {:induction false} SumSeqAgrees(order: seq<U32>, m: map<U32, int>, m': map<U32, int>)
    requires forall t :: t in order ==> t in m && t in m' && m[t] == m'[t]
    ensures SumSeq(order, m) == SumSeq(order, m')
  {
    if order != [] { SumSeqAgrees(order[..|order| - 1], m, m'); }
  }

  lemma EnumeratesRest(order: seq<U32>, keys: set<U32>)
    requires Enumerates(order, keys) && order != []
    ensures var front, t := order[..|order| - 1], order[|order| - 1];
            t in keys && Enumerates(front, keys - {t}) && forall u :: u in front ==> u in keys && u != t
  {
    var front, t := order[..|order| - 1], order[|order| - 1];
    assert order == front + [t];
    assert t !in front;
  }

  lemma {:induction false} SumSeqIsMapSum(order: seq<U32>, m: map<U32, int>)
    requires Enumerates(order, m.Keys)
    ensures SumSeq(order, m) == MapSum(m)
    decreases |order|
  {
    if order == [] {
      assert m.Keys == {};
      assert m == map[];
    } else {
      hide Enumerates, MapSum;
      var front, t := order[..|order| - 1], order[|order| - 1];
      EnumeratesRest(order, m.Keys);
      var rest := m - {t};
      assert rest.Keys == m.Keys - {t};
      SumSeqAgrees(front, m, rest);
      SumSeqIsMapSum(front, rest);
      MapSumRemove(m, t);
    }
  }

  // ------------------------------------------------------------------------------- the counters

  /** The headline totals, by name. */
  datatype Headline = OnCpuTime | TargetTime | TargetSpanCount | OffCpuTime(reason: Reason)

  function HeadlineOf(t: Totals, h: Headline): U64 {
    match h
    case OnCpuTime => t.onCpuNs
    case TargetTime => t.targetNs
    case TargetSpanCount => t.targetSpans
    case OffCpuTime(reason) => Count(ZERO.(offCpu := t.offCpu), OffCpuNs(reason))
  }

  lemma HeadlinesAdd(a: Totals, b: Totals, h: Headline)
    ensures HeadlineOf(AddTotals(a, b), h) == SatAdd(HeadlineOf(a, h), HeadlineOf(b, h))
  {
  }

  /** One number a caller can read off the aggregation. */
  datatype Figure =
    | NodeFigure(path: Path, counter: Counter)
    | TotalFigure(address: Addr, counter: Counter)
    | OwnFigure(address: Addr, counter: Counter)
    | HeadlineFigure(headline: Headline)

  function FigureOf(w: Walk, f: Figure): U64 {
    match f
    case NodeFigure(path, c) => Count(At(Build(w.credits), path), c)
    case TotalFigure(a, c) => Count(Stats(BuildTable(w.credits), a).total, c)
    case OwnFigure(a, c) => Count(Stats(BuildTable(w.credits), a).own, c)
    case HeadlineFigure(h) => HeadlineOf(w.totals, h)
  }

  lemma {:induction false} TableAdds(cs: seq<Credit>, ds: seq<Credit>, a: Addr, c: Counter)
    ensures var s, t, u := Stats(BuildTable(cs), a), Stats(BuildTable(ds), a), Stats(BuildTable(cs + ds), a);
            && Count(u.total, c) == SatAdd(Count(s.total, c), Count(t.total, c))
            && Count(u.own, c) == SatAdd(Count(s.own, c), Count(t.own, c))
    decreases |ds|
  {
    hide CreditTable, Count;
    if ds == [] {
      assert cs + ds == cs;
      EmptyCounts(c);
    } else {
      var front, d := ds[..|ds| - 1], ds[|ds| - 1];
      assert (cs + ds)[..|cs + ds| - 1] == cs + front;
      TableAdds(cs, front, a, c);
      CreditTablePointwise(BuildTable(cs + front), d.stack, d.delta, a, c);
      CreditTablePointwise(BuildTable(front), d.stack, d.delta, a, c);
      assert BuildTable(cs + ds) == CreditTable(BuildTable(cs + front), d.stack, d.delta);
      assert BuildTable(ds) == CreditTable(BuildTable(front), d.stack, d.delta);
      hide SatAdd, BuildTable, Stats;
      var s, t := Stats(BuildTable(cs), a), Stats(BuildTable(front), a);
      var x, y := if a in d.stack then Count(d.delta, c) else 0, if d.stack != [] && d.stack[0] == a then Count(d.delta, c) else 0;
      SatAddAssociative(Count(s.total, c), Count(t.total, c), x);
      SatAddAssociative(Count(s.own, c), Count(t.own, c), y);
    }
  }

  lemma SatAddAssociative(x: U64, y: U64, z: U64)
    ensures SatAdd(SatAdd(x, y), z) == SatAdd(x, SatAdd(y, z))
  {
  }

  lemma EmptyCounts(c: Counter)
    ensures Count(ZERO, c) == 0
  {
  }

  lemma NodesAdd(cs: seq<Credit>, ds: seq<Credit>, p: Path, c: Counter)
    ensures Count(At(Build(cs + ds), p), c) == SatAdd(Count(At(Build(cs), p), c), Count(At(Build(ds), p), c))
  {
    hide Build, SumAt, Count, Plus;
    BuildTally(cs, p);
    BuildTally(ds, p);
    BuildTally(cs + ds, p);
    SumAtConcat(cs, ds, p);
    PlusCounts(SumAt(cs, p), SumAt(ds, p), c);
    EmptyCounts(c);
  }

  /** Any figure of two walks put together is the capped sum of theirs. */
  lemma FiguresAdd(w: Walk, v: Walk, f: Figure)
    ensures FigureOf(After(w, v), f) == SatAdd(FigureOf(w, f), FigureOf(v, f))
  {
    hide Count, Build, BuildTable, HeadlineOf, AddTotals;
    match f
    case NodeFigure(p, c) => NodesAdd(w.credits, v.credits, p, c);
    case TotalFigure(a, c) => TableAdds(w.credits, v.credits, a, c);
    case OwnFigure(a, c) => TableAdds(w.credits, v.credits, a, c);
    case HeadlineFigure(h) => HeadlinesAdd(w.totals, v.totals, h);
  }

  lemma NothingYet(f: Figure)
    ensures FigureOf(START, f) == 0
  {
  }

  /** What each thread alone shows for the figure. */
  function Shares(q: Query, now: U64, threads: map<U32, ThreadStats>, f: Figure): map<U32, int> {
    map t | t in threads :: FigureOf(ThreadWalk(q, now, threads, t), f)
  }

  lemma {:induction false} FiguresOfThreads(q: Query, now: U64, threads: map<U32, ThreadStats>, order: seq<U32>, f: Figure)
    requires forall t :: t in order ==> t in threads
    ensures SumSeq(order, Shares(q, now, threads, f)) >= 0
    ensures FigureOf(WalkThreads(q, now, threads, order), f) == Min(U64_MAX, SumSeq(order, Shares(q, now, threads, f)))
  {
    hide FigureOf, WalkThread, ThreadWalk, After;
    if order == [] {
      NothingYet(f);
    } else {
      var front, t := order[..|order| - 1], order[|order| - 1];
      FiguresOfThreads(q, now, threads, front, f);
      ThreadAfter(q, now, threads, t, WalkThreads(q, now, threads, front));
      FiguresAdd(WalkThreads(q, now, threads, front), ThreadWalk(q, now, threads, t), f);
    }
  }

  /**
   Whatever order the threads are visited in, every figure of the aggregation is the sum of the
   threads' own figures, capped at the largest u64.
   */
  lemma FiguresIgnoreThreadOrder(q: Query, now: U64, threads: map<U32, ThreadStats>, order: seq<U32>, f: Figure)
    requires Enumerates(order, threads.Keys)
    ensures FigureOf(WalkThreads(q, now, threads, order), f) == Min(U64_MAX, MapSum(Shares(q, now, threads, f)))
  {
    hide FigureOf;
    FiguresOfThreads(q, now, threads, order, f);
    SumSeqIsMapSum(order, Shares(q, now, threads, f));
  }

  // --------------------------------------------------------------------------- the target kind

  /** A place that shows a target kind: a node of the tree or an address of the table. */
  datatype Slot = NodeSlot(path: Path) | TableSlot(address: Addr)

  function KindOf(w: Walk, slot: Slot): Option<LaneKind> {
    match slot
    case NodeSlot(path) => At(Build(w.credits), path).kind
    case TableSlot(a) => Stats(BuildTable(w.credits), a).total.kind
  }

  lemma NodeKindsAdd(cs: seq<Credit>, ds: seq<Credit>, p: Path)
    ensures At(Build(cs + ds), p).kind == SetTargetKind(At(Build(cs), p).kind, At(Build(ds), p).kind)
  {
    hide Build, SumAt;
    BuildTally(cs, p);
    BuildTally(ds, p);
    BuildTally(cs + ds, p);
    SumAtConcat(cs, ds, p);
  }

  /** A credit offers its kind to every address of its stack. */
  lemma CreditTableKind(m: Table, stack: seq<Addr>, delta: Tally, a: Addr)
    ensures Stats(CreditTable(m, stack, delta), a).total.kind
         == if a in stack then SetTargetKind(Stats(m, a).total.kind, delta.kind) else Stats(m, a).total.kind
  {
    if stack != [] {
      TotalsUpToPointwise(CreditLeaf(m, stack[0], delta), stack, |stack|, delta, a);
      assert stack[..|stack|] == stack;
    }
  }

  lemma {:induction false} TableKindsAdd(cs: seq<Credit>, ds: seq<Credit>, a: Addr)
    ensures Stats(BuildTable(cs + ds), a).total.kind
         == SetTargetKind(Stats(BuildTable(cs), a).total.kind, Stats(BuildTable(ds), a).total.kind)
    decreases |ds|
  {
    hide CreditTable;
    if ds == [] {
      assert cs + ds == cs;
    } else {
      var front, d := ds[..|ds| - 1], ds[|ds| - 1];
      assert (cs + ds)[..|cs + ds| - 1] == cs + front;
      TableKindsAdd(cs, front, a);
      CreditTableKind(BuildTable(cs + front), d.stack, d.delta, a);
      CreditTableKind(BuildTable(front), d.stack, d.delta, a);
    }
  }

  lemma KindsAdd(w: Walk, v: Walk, slot: Slot)
    ensures KindOf(After(w, v), slot) == SetTargetKind(KindOf(w, slot), KindOf(v, slot))
  {
    hide Build, BuildTable, AddTotals, SetTargetKind;
    match slot
    case NodeSlot(p) => NodeKindsAdd(w.credits, v.credits, p);
    case TableSlot(a) => TableKindsAdd(w.credits, v.credits, a);
  }

  // ------------------------------------------------------ where a thread's own kind comes from

  /** The kind that a list of credits leaves at the place. */
  function KindIn(cs: seq<Credit>, slot: Slot): Option<LaneKind> {
    match slot
    case NodeSlot(path) => At(Build(cs), path).kind
    case TableSlot(a) => Stats(BuildTable(cs), a).total.kind
  }

  /** The place is on the stack: a node below the root on its path, or an address in it. */
  predicate Reaches(stack: seq<Addr>, slot: Slot) {
    match slot
    case NodeSlot(path) => path != [] && path <= Reverse(stack)
    case TableSlot(a) => a in stack
  }

  lemma KindInConcat(cs: seq<Credit>, ds: seq<Credit>, slot: Slot)
    ensures KindIn(cs + ds, slot) == SetTargetKind(KindIn(cs, slot), KindIn(ds, slot))
  {
    hide Build, BuildTable, SetTargetKind;
    match slot
    case NodeSlot(p) => NodeKindsAdd(cs, ds, p);
    case TableSlot(a) => TableKindsAdd(cs, ds, a);
  }

  lemma KindInOne(c: Credit, slot: Slot)
    ensures KindIn([], slot) == None
    ensures KindIn([c], slot) == if Reaches(c.stack, slot) then c.delta.kind else None
  {
    match slot
    case NodeSlot(p) => NodeKindOfOne(c, p);
    case TableSlot(a) => TableKindOfOne(c, a);
  }

  lemma NodeKindOfOne(c: Credit, p: Path)
    ensures At(Build([]), p).kind == None
    ensures At(Build([c]), p).kind == if p != [] && p <= Reverse(c.stack) then c.delta.kind else None
  {
    BuildTally([], p);
    BuildTally([c], p);
    hide Build;
    assert [c][..0] == [];
    assert SumAt([c], p) == if p <= PathOf(c) then Plus(SumAt([], p), c.delta) else SumAt([], p);
  }

  lemma TableKindOfOne(c: Credit, a: Addr)
    ensures Stats(BuildTable([]), a).total.kind == None
    ensures Stats(BuildTable([c]), a).total.kind == if a in c.stack then c.delta.kind else None
  {
    CreditTableKind(map[], c.stack, c.delta, a);
    hide CreditTable;
    assert [c][..0] == [];
    assert BuildTable([c]) == CreditTable(BuildTable([]), c.stack, c.delta);
  }

  lemma {:induction false} KindInPlain(cs: seq<Credit>, slot: Slot)
    requires forall c :: c in cs ==> c.delta.kind == None
    ensures KindIn(cs, slot) == None
  {
    hide KindIn;
    if cs == [] {
      KindInOne(Credit([], ZERO), slot);
    } else {
      var front, last := cs[..|cs| - 1], cs[|cs| - 1];
      assert cs == front + [last];
      KindInPlain(front, slot);
      KindInOne(last, slot);
      KindInConcat(front, [last], slot);
    }
  }

  /** The interval is a target span that the query shows, and its two leaf-most frames reach the place. */
  predicate Marks(q: Query, tid: U32, now: U64, iv: RawInterval, slot: Slot) {
    && iv.kind.SyntheticSpan? && DurationOf(iv, now) > 0
    && (q.tid.None? || q.tid.value == tid || q.tid == iv.kind.originTid) && q.keepInterval(tid, iv)
    && Reaches(TargetLaneStack(iv.kind.stack), slot)
  }

  function MarkOf(q: Query, tid: U32, now: U64, iv: RawInterval, slot: Slot): Option<LaneKind> {
    if Marks(q, tid, now, iv, slot) then Some(iv.kind.laneKind) else None
  }

  /** `kind` is that of the first interval that marks the place, or none if none does. */
  ghost predicate IsFirstMark(q: Query, tid: U32, now: U64, ivs: seq<RawInterval>, slot: Slot, kind: Option<LaneKind>) {
    match kind
    case None => forall i :: 0 <= i < |ivs| ==> !Marks(q, tid, now, ivs[i], slot)
    case Some(lane) =>
      exists i :: 0 <= i < |ivs| && Marks(q, tid, now, ivs[i], slot) && ivs[i].kind.laneKind == lane
        && forall j :: 0 <= j < i ==> !Marks(q, tid, now, ivs[j], slot)
  }

  lemma MarkOneMore(q: Query, tid: U32, now: U64, ivs: seq<RawInterval>, n: nat, slot: Slot, kind: Option<LaneKind>)
    requires n < |ivs| && IsFirstMark(q, tid, now, ivs[..n], slot, kind)
    ensures IsFirstMark(q, tid, now, ivs[..n + 1], slot, SetTargetKind(kind, MarkOf(q, tid, now, ivs[n], slot)))
  {
    hide Marks;
    var more := ivs[..n + 1];
    assert forall i :: 0 <= i < n ==> more[i] == ivs[..n][i];
    assert more[n] == ivs[n];
  }

  lemma SampleCreditsPlain(w: Walk, duration: U64, matching: seq<PetSample>, slot: Slot)
    ensures KindIn(Spread(w, duration, matching).credits, slot) == KindIn(w.credits, slot)
  {
    hide KindIn, SetTargetKind;
    var w' := Spread(w, duration, matching);
    if w' != w {
      var cs := SampleCredits(matching, duration / |matching|);
      assert w'.credits == w.credits + cs;
      hide Spread;
      assert forall c :: c in cs ==> c.delta.kind == None;
      KindInPlain(cs, slot);
      KindInConcat(w.credits, cs, slot);
      NothingSet(KindIn(w.credits, slot));
    }
  }

  lemma NothingSet(kind: Option<LaneKind>)
    ensures SetTargetKind(kind, None) == kind
  {
  }

  lemma IntervalKind(q: Query, tid: U32, now: U64, samples: seq<PetSample>, iv: RawInterval, w: Walk, slot: Slot)
    requires w.cursor <= |samples|
    ensures KindIn(WalkInterval(q, tid, now, samples, iv, w).credits, slot)
         == SetTargetKind(KindIn(w.credits, slot), MarkOf(q, tid, now, iv, slot))
  {
    hide KindIn, SetTargetKind, Spread, Reaches;
    NothingSet(KindIn(w.credits, slot));
    var duration := DurationOf(iv, now);
    match iv.kind
    case OnCpu =>
      var cursor := AdvanceCursor(samples, w.cursor, iv.startNs);
      SampleCreditsPlain(w.(cursor := cursor), duration, Matching(q, tid, samples, cursor, EndOf(iv, now)), slot);
    case SyntheticSpan(stack, _, laneKind) =>
      var c := Credit(TargetLaneStack(stack), OnCpuDelta(duration, NO_PMC, true, Some(laneKind)));
      KindInOne(c, slot);
      KindInConcat(w.credits, [c], slot);
    case OffCpu(stack, _, _) =>
      var c := Credit(stack, OffCpuDelta(BlockReason(q, stack), duration));
      KindInOne(c, slot);
      KindInConcat(w.credits, [c], slot);
  }

  lemma {:induction false} IntervalsKind(q: Query, tid: U32, now: U64, stats: ThreadStats, n: nat, slot: Slot)
    requires n <= |stats.intervals|
    ensures IsFirstMark(q, tid, now, stats.intervals[..n], slot, KindIn(WalkIntervals(q, tid, now, stats, n, START).credits, slot))
  {
    hide WalkInterval, KindIn, Marks;
    if n == 0 {
      KindInOne(Credit([], ZERO), slot);
    } else {
      IntervalsKind(q, tid, now, stats, n - 1, slot);
      var w, iv := WalkIntervals(q, tid, now, stats, n - 1, START), stats.intervals[n - 1];
      IntervalKind(q, tid, now, stats.petSamples, iv, w, slot);
      MarkOneMore(q, tid, now, stats.intervals, n - 1, slot, KindIn(w.credits, slot));
    }
  }

  /**
   The kind a thread alone shows at a place is that of its first target span, in the order of its log,
   that is asked for, kept, not empty, and has the place on its two leaf-most frames.
   */
  lemma OwnKindIsFirstSpan(q: Query, now: U64, threads: map<U32, ThreadStats>, t: U32, slot: Slot)
    requires t in threads
    ensures IsFirstMark(q, t, now, threads[t].intervals, slot, OwnKinds(q, now, threads, slot)[t])
  {
    var stats := threads[t];
    IntervalsKind(q, t, now, stats, |stats.intervals|, slot);
    assert stats.intervals[..|stats.intervals|] == stats.intervals;
    hide IsFirstMark, WalkIntervals;
    assert OwnKinds(q, now, threads, slot)[t] == KindIn(ThreadWalk(q, now, threads, t).credits, slot);
  }

  /** The kind each thread alone would show. */
  function OwnKinds(q: Query, now: U64, threads: map<U32, ThreadStats>, slot: Slot): map<U32, Option<LaneKind>> {
    map t | t in threads :: KindOf(ThreadWalk(q, now, threads, t), slot)
  }

  /** `kind` is the first one that a thread of the order has, or none if none has. */
  ghost predicate IsFirst(order: seq<U32>, own: map<U32, Option<LaneKind>>, kind: Option<LaneKind>)
    requires forall t :: t in order ==> t in own
  {
    if kind.None? then forall i :: 0 <= i < |order| ==> own[order[i]].None?
    else exists i :: 0 <= i < |order| && own[order[i]] == kind && forall j :: 0 <= j < i ==> own[order[j]].None?
  }

  lemma FirstOneMore(front: seq<U32>, t: U32, own: map<U32, Option<LaneKind>>, kind: Option<LaneKind>)
    requires t in own && (forall u :: u in front ==> u in own) && IsFirst(front, own, kind)
    ensures IsFirst(front + [t], own, SetTargetKind(kind, own[t]))
  {
    var order := front + [t];
    assert order[|front|] == t;
    if kind.Some? {
      var i :| 0 <= i < |front| && own[front[i]] == kind && forall j :: 0 <= j < i ==> own[front[j]].None?;
      assert own[order[i]] == kind && forall j :: 0 <= j < i ==> own[order[j]].None?;
    } else if own[t].Some? {
      assert own[order[|front|]] == own[t] && forall j :: 0 <= j < |front| ==> own[order[j]].None?;
    }
  }

  /** The kind shown at any place is that of the first thread visited that has one there. */
  lemma {:induction false} KindIsFirst(q: Query, now: U64, threads: map<U32, ThreadStats>, order: seq<U32>, slot: Slot)
    requires forall t :: t in order ==> t in threads
    ensures IsFirst(order, OwnKinds(q, now, threads, slot), KindOf(WalkThreads(q, now, threads, order), slot))
  {
    hide KindOf, WalkThread, ThreadWalk, After, IsFirst;
    if order == [] {
      NoKindYet(q, now, threads, slot);
    } else {
      var front, t := order[..|order| - 1], order[|order| - 1];
      KindIsFirst(q, now, threads, front, slot);
      ThreadAfter(q, now, threads, t, WalkThreads(q, now, threads, front));
      KindsAdd(WalkThreads(q, now, threads, front), ThreadWalk(q, now, threads, t), slot);
      FirstOneMore(front, t, OwnKinds(q, now, threads, slot), KindOf(WalkThreads(q, now, threads, front), slot));
      assert order == front + [t];
    }
  }

  lemma NoKindYet(q: Query, now: U64, threads: map<U32, ThreadStats>, slot: Slot)
    ensures IsFirst([], OwnKinds(q, now, threads, slot), KindOf(START, slot))
  {
    assert KindOf(START, slot).None?;
  }

  /** No two threads have different kinds there. */
  ghost predicate KindsAgree(own: map<U32, Option<LaneKind>>) {
    forall t, u :: t in own && u in own && own[t].Some? && own[u].Some? ==> own[t] == own[u]
  }

  lemma AgreedFirst(own: map<U32, Option<LaneKind>>, a: seq<U32>, b: seq<U32>, k: Option<LaneKind>, l: Option<LaneKind>)
    requires Enumerates(a, own.Keys) && Enumerates(b, own.Keys) && KindsAgree(own)
    requires IsFirst(a, own, k) && IsFirst(b, own, l)
    ensures k == l
  {
    AnyKindIsFirst(own, a, k);
    AnyKindIsFirst(own, b, l);
  }

  lemma AnyKindIsFirst(own: map<U32, Option<LaneKind>>, order: seq<U32>, kind: Option<LaneKind>)
    requires Enumerates(order, own.Keys) && KindsAgree(own) && IsFirst(order, own, kind)
    ensures forall t :: t in own && own[t].Some? ==> kind == own[t]
    ensures kind.Some? ==> exists t :: t in own && own[t] == kind
  {
    forall t | t in own && own[t].Some? ensures kind == own[t] {
      assert t in order;
      var i :| 0 <= i < |order| && order[i] == t;
      if kind.Some? {
        var j :| 0 <= j < |order| && own[order[j]] == kind;
        assert order[j] in order;
      }
    }
    if kind.Some? {
      var j :| 0 <= j < |order| && own[order[j]] == kind;
      assert order[j] in order;
    }
  }

  /** The keys can be visited beginning with any of them. */
  lemma {:induction false} SomeOrder(keys: set<U32>) returns (order: seq<U32>)
    ensures Enumerates(order, keys)
  {
    if keys == {} {
      order := [];
    } else {
      var t :| t in keys;
      order := SomeOrder(keys - {t});
      order := order + [t];
    }
  }

  lemma OrderFrom(keys: set<U32>, t: U32) returns (order: seq<U32>)
    requires t in keys
    ensures Enumerates(order, keys) && order != [] && order[0] == t
  {
    var rest := SomeOrder(keys - {t});
    order := [t] + rest;
  }

  /** The kind shown when the threads are visited in this order. */
  ghost function KindInOrder(q: Query, now: U64, threads: map<U32, ThreadStats>, order: seq<U32>, slot: Slot): Option<LaneKind>
    requires Enumerates(order, threads.Keys)
  {
    KindOf(WalkThreads(q, now, threads, order), slot)
  }

  ghost predicate OrderShowsNot(q: Query, now: U64, threads: map<U32, ThreadStats>, slot: Slot) {
    forall a, b :: Enumerates(a, threads.Keys) && Enumerates(b, threads.Keys)
      ==> KindInOrder(q, now, threads, a, slot) == KindInOrder(q, now, threads, b, slot)
  }

  /**
   The first-wins kind is the only thing that can depend on the order: at a node or an address every
   order shows the same kind if and only if no two threads have different kinds there.
   */
  lemma KindIgnoresThreadOrderExactly(q: Query, now: U64, threads: map<U32, ThreadStats>, slot: Slot)
    ensures OrderShowsNot(q, now, threads, slot) <==> KindsAgree(OwnKinds(q, now, threads, slot))
  {
    hide KindOf, WalkThreads, ThreadWalk, IsFirst, Enumerates;
    var own := OwnKinds(q, now, threads, slot);
    assert own.Keys == threads.Keys;
    if KindsAgree(own) {
      forall a, b | Enumerates(a, threads.Keys) && Enumerates(b, threads.Keys)
        ensures KindInOrder(q, now, threads, a, slot) == KindInOrder(q, now, threads, b, slot)
      {
        EnumeratesMembers(a, threads.Keys);
        EnumeratesMembers(b, threads.Keys);
        KindIsFirst(q, now, threads, a, slot);
        KindIsFirst(q, now, threads, b, slot);
        AgreedFirst(own, a, b, KindInOrder(q, now, threads, a, slot), KindInOrder(q, now, threads, b, slot));
      }
    } else {
      var t, u :| t in own && u in own && own[t].Some? && own[u].Some? && own[t] != own[u];
      var a := VisitedFirst(q, now, threads, t, slot);
      var b := VisitedFirst(q, now, threads, u, slot);
      assert KindInOrder(q, now, threads, a, slot) != KindInOrder(q, now, threads, b, slot);
    }
  }

  lemma EnumeratesMembers(order: seq<U32>, keys: set<U32>)
    requires Enumerates(order, keys)
    ensures forall t :: t in order <==> t in keys
  {
  }

  lemma VisitedFirst(q: Query, now: U64, threads: map<U32, ThreadStats>, t: U32, slot: Slot) returns (order: seq<U32>)
    requires t in threads && OwnKinds(q, now, threads, slot)[t].Some?
    ensures Enumerates(order, threads.Keys) && KindInOrder(q, now, threads, order, slot) == OwnKinds(q, now, threads, slot)[t]
  {
    hide KindOf, WalkThreads, ThreadWalk;
    var own := OwnKinds(q, now, threads, slot);
    order := OrderFrom(threads.Keys, t);
    KindIsFirst(q, now, threads, order, slot);
    FirstHasIt(order, own, KindInOrder(q, now, threads, order, slot));
  }

  lemma FirstHasIt(order: seq<U32>, own: map<U32, Option<LaneKind>>, kind: Option<LaneKind>)
    requires order != [] && (forall t :: t in order ==> t in own) && IsFirst(order, own, kind) && own[order[0]].Some?
    ensures kind == own[order[0]]
  {
  }

  /** An instance: two threads that mark one frame differently. */
  lemma KindDependsOnThreadOrder(q: Query)
    requires q.tid.None? && forall t, iv :: q.keepInterval(t, iv)
    ensures var threads: map<U32, ThreadStats> :=
              map[1 := ThreadStats([], [RawInterval(1, 2, SyntheticSpan([7], None, Generic))]),
                  2 := ThreadStats([], [RawInterval(1, 2, SyntheticSpan([7], None, Metal))])];
            && At(Build(WalkThreads(q, 2, threads, [1, 2]).credits), [7]).kind == Some(Generic)
            && At(Build(WalkThreads(q, 2, threads, [2, 1]).credits), [7]).kind == Some(Metal)
  {
    var a, b := RawInterval(1, 2, SyntheticSpan([7], None, Generic)), RawInterval(1, 2, SyntheticSpan([7], None, Metal));
    var threads: map<U32, ThreadStats> := map[1 := ThreadStats([], [a]), 2 := ThreadStats([], [b])];
    ShownFirst(q, threads, 1, 2, a);
    ShownFirst(q, threads, 2, 1, b);
  }

  lemma ShownFirst(q: Query, threads: map<U32, ThreadStats>, t: U32, u: U32, iv: RawInterval)
    requires q.tid.None? && (forall x, j :: q.keepInterval(x, j)) && t in threads && u in threads
    requires threads[t] == ThreadStats([], [iv])
    requires iv.kind.SyntheticSpan? && iv.kind.stack == [7] && iv.startNs == 1 && iv.endNs == 2
    ensures At(Build(WalkThreads(q, 2, threads, [t, u]).credits), [7]).kind == Some(iv.kind.laneKind)
  {
    assert OwnKinds(q, 2, threads, NodeSlot([7])).Keys == threads.Keys;
    hide OwnKinds, WalkThreads, IsFirst, Build;
    var slot, kind := NodeSlot([7]), KindOf(WalkThreads(q, 2, threads, [t, u]), NodeSlot([7]));
    OneSpanMarks(q, threads, t, iv);
    KindIsFirst(q, 2, threads, [t, u], slot);
    FirstHasIt([t, u], OwnKinds(q, 2, threads, slot), kind);
  }

  lemma OneSpanMarks(q: Query, threads: map<U32, ThreadStats>, t: U32, iv: RawInterval)
    requires q.tid.None? && (forall x, j :: q.keepInterval(x, j)) && t in threads && threads[t] == ThreadStats([], [iv])
    requires iv.kind.SyntheticSpan? && iv.kind.stack == [7] && iv.startNs == 1 && iv.endNs == 2
    ensures OwnKinds(q, 2, threads, NodeSlot([7]))[t] == Some(iv.kind.laneKind)
  {
    var slot := NodeSlot([7]);
    assert Reverse([7]) == [7] && TargetLaneStack([7]) == [7];
    assert Marks(q, t, 2, iv, slot);
    hide Marks, KindOf, ThreadWalk;
    OwnKindIsFirstSpan(q, 2, threads, t, slot);
    OnlyMark(q, t, 2, iv, slot, OwnKinds(q, 2, threads, slot)[t]);
  }

  lemma OnlyMark(q: Query, t: U32, now: U64, iv: RawInterval, slot: Slot, kind: Option<LaneKind>)
    requires Marks(q, t, now, iv, slot) && IsFirstMark(q, t, now, [iv], slot, kind)
    ensures kind == Some(iv.kind.laneKind)
  {
    hide Marks;
    assert [iv][0] == iv;
  }
}
