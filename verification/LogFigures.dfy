/**
 What a query reports, read off the log: every counter of the tree, the table and the totals is the
 capped sum, over all intervals of all threads, of what one interval adds by its own fields.
 */
module LogFigures {
  import opened Numbers
  import opened Options
  import opened CallTrie
  import opened PathSums
  import opened TopTable
  import opened A = Aggregator
  import opened AggregatorLaws
  import opened EventLog

  // --------------------------------------------------------------------- what one interval adds

  /** From its start to its end; an open interval ends at the later of now and its start. */
  function Lasts(iv: RawInterval, now: U64): nat {
    if iv.endNs != 0 then (if iv.startNs < iv.endNs then iv.endNs - iv.startNs else 0)
    else if iv.startNs < now then now - iv.startNs
    else 0
  }

  /** The query is about this thread; a span is also shown to the thread it began on. */
  predicate AsksFor(q: Query, tid: U32, iv: RawInterval) {
    || q.tid == None || q.tid == Some(tid)
    || (iv.kind.SyntheticSpan? && q.tid == iv.kind.originTid)
  }

  function LeafOf(stack: seq<Addr>): Option<Addr> {
    if |stack| > 0 then Some(stack[0]) else None
  }

  /** At most the two leaf-most frames, root first. */
  function LanePath(stack: seq<Addr>): Path {
    if |stack| == 0 then [] else if |stack| == 1 then [stack[0]] else [stack[1], stack[0]]
  }

  /** Blocked time goes to the reason that the leaf frame is classified as. */
  function BlockedAdds(q: Query, stack: seq<Addr>, lasts: nat, c: Counter): nat {
    match c
    case OffCpuNs(reason) => if q.classify(LeafOf(stack)) == reason then lasts else 0
    case OffCpuIntervals => 1
    case _ => 0
  }

  function SpanAdds(lasts: nat, c: Counter): nat {
    match c
    case OnCpuNs => lasts
    case TargetNs => lasts
    case PetSamples => 1
    case TargetSpans => 1
    case _ => 0
  }

  /** One sample with its share of an interval's time, and with the hardware counts it carries. */
  function SampleAdds(s: PetSample, share: nat, c: Counter): nat {
    match c
    case OnCpuNs => share
    case PetSamples => 1
    case Cycles => s.pmc.cycles
    case Instructions => s.pmc.instructions
    case L1dMisses => s.pmc.l1dMisses
    case BranchMispreds => s.pmc.branchMispreds
    case _ => 0
  }

  ghost function SamplesAdd(samples: seq<PetSample>, share: nat, sel: Path -> bool, c: Counter): nat {
    if samples == [] then 0
    else
      var s := samples[|samples| - 1];
      SamplesAdd(samples[..|samples| - 1], share, sel, c) + if sel(Reverse(s.stack)) then SampleAdds(s, share, c) else 0
  }

  /** The samples that fall into an interval and are kept share its time, if there is enough for each. */
  ghost function RunningAdds(q: Query, tid: U32, samples: seq<PetSample>, iv: RawInterval, lasts: nat,
                             sel: Path -> bool, c: Counter): nat
    requires 0 < lasts && iv.startNs + lasts <= U64_MAX
  {
    var inside := Inside(q, tid, samples, iv.startNs, iv.startNs + lasts, 0);
    if 0 < |inside| <= lasts then SamplesAdd(inside, lasts / |inside|, sel, c) else 0
  }

  /** What an interval of thread `tid` adds to counter `c` where the credited path satisfies `sel`. */
  ghost function Adds(q: Query, tid: U32, now: U64, samples: seq<PetSample>, iv: RawInterval,
                      sel: Path -> bool, c: Counter): nat
  {
    var lasts := Lasts(iv, now);
    if lasts == 0 || !AsksFor(q, tid, iv) then 0
    else match iv.kind
      case OffCpu(stack, _, _) => if q.keepInterval(tid, iv) && sel(Reverse(stack)) then BlockedAdds(q, stack, lasts, c) else 0
      case SyntheticSpan(stack, _, _) => if q.keepInterval(tid, iv) && sel(LanePath(stack)) then SpanAdds(lasts, c) else 0
      case OnCpu => RunningAdds(q, tid, samples, iv, lasts, sel, c)
  }

  ghost function ThreadAdds(q: Query, tid: U32, now: U64, stats: ThreadStats, n: nat, sel: Path -> bool, c: Counter): nat
    requires n <= |stats.intervals|
  {
    if n == 0 then 0
    else ThreadAdds(q, tid, now, stats, n - 1, sel, c)
         + Adds(q, tid, now, stats.petSamples, stats.intervals[n - 1], sel, c)
  }

  /** What the whole log adds. */
  ghost function LogAdds(q: Query, now: U64, threads: map<U32, ThreadStats>, order: seq<U32>, sel: Path -> bool, c: Counter): nat
    requires forall t :: t in order ==> t in threads
  {
    if order == [] then 0
    else
      var last := order[|order| - 1];
      LogAdds(q, now, threads, order[..|order| - 1], sel, c)
      + ThreadAdds(q, last, now, threads[last], |threads[last].intervals|, sel, c)
  }

  /** The counters that samples feed: for these the two cursors need time-ordered logs. */
  predicate FromSamples(c: Counter) {
    c.OnCpuNs? || c.PetSamples? || c.Cycles? || c.Instructions? || c.L1dMisses? || c.BranchMispreds?
  }

  ghost predicate Ordered(stats: ThreadStats, now: U64) {
    TimeSorted(stats.petSamples) && StartSorted(stats.intervals, now)
  }

  // ------------------------------------------------------------------------ one interval's credits

  ghost function Weight(cs: seq<Credit>, sel: Path -> bool, c: Counter): nat {
    WeightOf(Project(cs, c), sel)
  }

  lemma WeightSnoc(cs: seq<Credit>, credit: Credit, sel: Path -> bool, c: Counter)
    ensures Weight(cs + [credit], sel, c)
         == Weight(cs, sel, c) + if sel(Reverse(credit.stack)) then Count(credit.delta, c) else 0
  {
    hide Count, Reverse;
    assert (cs + [credit])[..|cs|] == cs;
    assert Project(cs + [credit], c)[..|cs|] == Project(cs, c);
  }

  lemma {:induction false} WeightOfSamples(cs: seq<Credit>, matching: seq<PetSample>, share: U64, sel: Path -> bool, c: Counter)
    ensures Weight(cs + SampleCredits(matching, share), sel, c) == Weight(cs, sel, c) + SamplesAdd(matching, share, sel, c)
  {
    hide Weight;
    if matching == [] {
      assert cs + SampleCredits(matching, share) == cs;
    } else {
      var front, s := matching[..|matching| - 1], matching[|matching| - 1];
      WeightOfSamples(cs, front, share, sel, c);
      assert cs + SampleCredits(matching, share) == (cs + SampleCredits(front, share)) + [SampleCredit(s, share)];
      WeightSnoc(cs + SampleCredits(front, share), SampleCredit(s, share), sel, c);
      assert Count(SampleCredit(s, share).delta, c) == SampleAdds(s, share, c);
    }
  }

  lemma DurationIsLasts(iv: RawInterval, now: U64)
    ensures DurationOf(iv, now) == Lasts(iv, now)
    ensures Lasts(iv, now) > 0 ==> EndOf(iv, now) == iv.startNs + Lasts(iv, now)
  {
  }

  lemma BlockedCounts(q: Query, stack: seq<Addr>, lasts: U64, c: Counter)
    ensures Count(OffCpuDelta(BlockReason(q, stack), lasts), c) == BlockedAdds(q, stack, lasts, c)
  {
  }

  lemma SpanCounts(lasts: U64, kind: LaneKind, c: Counter)
    ensures Count(OnCpuDelta(lasts, NO_PMC, true, Some(kind)), c) == SpanAdds(lasts, c)
  {
  }

  lemma LaneIsReversed(stack: seq<Addr>)
    ensures Reverse(TargetLaneStack(stack)) == LanePath(stack)
  {
    var r := Reverse(TargetLaneStack(stack));
    assert |r| == |LanePath(stack)| && forall i :: 0 <= i < |r| ==> r[i] == LanePath(stack)[i];
  }

  lemma OffCpuAdds(q: Query, tid: U32, now: U64, samples: seq<PetSample>, iv: RawInterval, w: Walk, sel: Path -> bool, c: Counter)
    requires iv.kind.OffCpu? && Lasts(iv, now) > 0
    ensures Weight(WalkOffCpu(q, tid, iv, Lasts(iv, now), w).credits, sel, c)
         == Weight(w.credits, sel, c) + Adds(q, tid, now, samples, iv, sel, c)
  {
    hide Weight, Count, OffCpuDelta, BlockReason, BlockedAdds, Reverse;
    var stack := iv.kind.stack;
    var reason := BlockReason(q, stack);
    WeightSnoc(w.credits, Credit(stack, OffCpuDelta(reason, Lasts(iv, now))), sel, c);
    BlockedCounts(q, stack, Lasts(iv, now), c);
  }

  lemma SpansAdd(q: Query, tid: U32, now: U64, samples: seq<PetSample>, iv: RawInterval, w: Walk, sel: Path -> bool, c: Counter)
    requires iv.kind.SyntheticSpan? && Lasts(iv, now) > 0
    ensures Weight(WalkSpan(q, tid, iv, Lasts(iv, now), w).credits, sel, c)
         == Weight(w.credits, sel, c) + Adds(q, tid, now, samples, iv, sel, c)
  {
    hide Weight, Count, OnCpuDelta, TargetLaneStack, LanePath, SpanAdds, Reverse;
    var stack, lasts := iv.kind.stack, Lasts(iv, now);
    WeightSnoc(w.credits, Credit(TargetLaneStack(stack), OnCpuDelta(lasts, NO_PMC, true, Some(iv.kind.laneKind))), sel, c);
    SpanCounts(lasts, iv.kind.laneKind, c);
    LaneIsReversed(stack);
  }

  lemma Divides(lasts: nat, n: nat)
    requires n > 0
    ensures lasts / n == 0 <==> lasts < n
  {
  }

  lemma OnCpuAdds(q: Query, tid: U32, now: U64, samples: seq<PetSample>, iv: RawInterval, w: Walk, sel: Path -> bool, c: Counter)
    requires iv.kind.OnCpu? && Lasts(iv, now) > 0 && AsksFor(q, tid, iv)
    ensures Weight(Spread(w, Lasts(iv, now), Inside(q, tid, samples, iv.startNs, EndOf(iv, now), 0)).credits, sel, c)
         == Weight(w.credits, sel, c) + Adds(q, tid, now, samples, iv, sel, c)
  {
    hide Weight, Inside, SampleCredits, SamplesAdd;
    var lasts := Lasts(iv, now);
    DurationIsLasts(iv, now);
    var inside := Inside(q, tid, samples, iv.startNs, EndOf(iv, now), 0);
    if inside != [] {
      Divides(lasts, |inside|);
      if |inside| <= lasts {
        WeightOfSamples(w.credits, inside, lasts / |inside|, sel, c);
      }
    }
  }

  lemma NaiveAdds(q: Query, tid: U32, now: U64, samples: seq<PetSample>, iv: RawInterval, w: Walk, sel: Path -> bool, c: Counter)
    ensures Weight(NaiveInterval(q, tid, now, samples, iv, w).credits, sel, c)
         == Weight(w.credits, sel, c) + Adds(q, tid, now, samples, iv, sel, c)
  {
    hide Weight, WalkSpan, WalkOffCpu, Spread, Inside;
    DurationIsLasts(iv, now);
    if Lasts(iv, now) > 0 {
      match iv.kind
      case OnCpu => if AsksFor(q, tid, iv) { OnCpuAdds(q, tid, now, samples, iv, w, sel, c); }
      case SyntheticSpan(_, _, _) => SpansAdd(q, tid, now, samples, iv, w, sel, c);
      case OffCpu(_, _, _) => OffCpuAdds(q, tid, now, samples, iv, w, sel, c);
    }
  }

  // ------------------------------------------------------------------------------- the whole walk

  lemma {:induction false} NoSampleFigures(matching: seq<PetSample>, share: nat, sel: Path -> bool, c: Counter)
    requires !FromSamples(c)
    ensures SamplesAdd(matching, share, sel, c) == 0
  {
    if matching != [] { NoSampleFigures(matching[..|matching| - 1], share, sel, c); }
  }

  lemma SpreadAddsNothing(w: Walk, duration: U64, matching: seq<PetSample>, sel: Path -> bool, c: Counter)
    requires !FromSamples(c)
    ensures Weight(Spread(w, duration, matching).credits, sel, c) == Weight(w.credits, sel, c)
  {
    hide Weight;
    if matching != [] && duration / |matching| != 0 {
      WeightOfSamples(w.credits, matching, duration / |matching|, sel, c);
      NoSampleFigures(matching, duration / |matching|, sel, c);
    }
  }

  /** What samples do not feed needs no order of the log. */
  lemma PlainIntervalAdds(q: Query, tid: U32, now: U64, samples: seq<PetSample>, iv: RawInterval, w: Walk,
                          sel: Path -> bool, c: Counter)
    requires !FromSamples(c) && w.cursor <= |samples|
    ensures Weight(WalkInterval(q, tid, now, samples, iv, w).credits, sel, c)
         == Weight(w.credits, sel, c) + Adds(q, tid, now, samples, iv, sel, c)
  {
    hide Weight, WalkSpan, WalkOffCpu, Spread, Inside, Matching;
    DurationIsLasts(iv, now);
    var lasts := Lasts(iv, now);
    if lasts > 0 {
      match iv.kind
      case OnCpu =>
        var cursor := AdvanceCursor(samples, w.cursor, iv.startNs);
        SpreadAddsNothing(w.(cursor := cursor), lasts, Matching(q, tid, samples, cursor, EndOf(iv, now)), sel, c);
        var inside := Inside(q, tid, samples, iv.startNs, iv.startNs + lasts, 0);
        if inside != [] { NoSampleFigures(inside, lasts / |inside|, sel, c); }
      case SyntheticSpan(_, _, _) => SpansAdd(q, tid, now, samples, iv, w, sel, c);
      case OffCpu(_, _, _) => OffCpuAdds(q, tid, now, samples, iv, w, sel, c);
    }
  }

  lemma {:induction false} PlainThreadAdds(q: Query, tid: U32, now: U64, stats: ThreadStats, n: nat, w: Walk,
                                           sel: Path -> bool, c: Counter)
    requires !FromSamples(c) && n <= |stats.intervals| && w.cursor == 0
    ensures Weight(WalkIntervals(q, tid, now, stats, n, w).credits, sel, c)
         == Weight(w.credits, sel, c) + ThreadAdds(q, tid, now, stats, n, sel, c)
  {
    hide Weight, WalkInterval, Adds;
    if n > 0 {
      PlainThreadAdds(q, tid, now, stats, n - 1, w, sel, c);
      PlainIntervalAdds(q, tid, now, stats.petSamples, stats.intervals[n - 1],
                        WalkIntervals(q, tid, now, stats, n - 1, w), sel, c);
    }
  }

  lemma {:induction false} NaiveThreadAdds(q: Query, tid: U32, now: U64, stats: ThreadStats, n: nat, w: Walk,
                                           sel: Path -> bool, c: Counter)
    requires n <= |stats.intervals|
    ensures Weight(NaiveIntervals(q, tid, now, stats, n, w).credits, sel, c)
         == Weight(w.credits, sel, c) + ThreadAdds(q, tid, now, stats, n, sel, c)
  {
    hide Weight, NaiveInterval, Adds;
    if n > 0 {
      NaiveThreadAdds(q, tid, now, stats, n - 1, w, sel, c);
      NaiveAdds(q, tid, now, stats.petSamples, stats.intervals[n - 1], NaiveIntervals(q, tid, now, stats, n - 1, w), sel, c);
    }
  }

  /** A thread adds to a walk what its log says. */
  lemma WalkedThreadAdds(q: Query, tid: U32, now: U64, stats: ThreadStats, w: Walk, sel: Path -> bool, c: Counter)
    requires FromSamples(c) ==> Ordered(stats, now)
    ensures Weight(WalkThread(q, tid, now, stats, w).credits, sel, c)
         == Weight(w.credits, sel, c) + ThreadAdds(q, tid, now, stats, |stats.intervals|, sel, c)
  {
    hide Weight, WalkIntervals, NaiveIntervals, TimeSorted, StartSorted;
    var n, w0 := |stats.intervals|, w.(cursor := 0);
    if FromSamples(c) {
      WalkIsNaive(q, tid, now, stats, n, w0);
      NaiveThreadAdds(q, tid, now, stats, n, w0, sel, c);
    } else {
      PlainThreadAdds(q, tid, now, stats, n, w0, sel, c);
    }
  }

  /** The credits of a query weigh, wherever one looks, what the log adds there. */
  lemma {:induction false} CreditsFromLog(q: Query, now: U64, threads: map<U32, ThreadStats>, order: seq<U32>,
                                          sel: Path -> bool, c: Counter)
    requires forall t :: t in order ==> t in threads
    requires FromSamples(c) ==> forall t :: t in order ==> Ordered(threads[t], now)
    ensures Weight(WalkThreads(q, now, threads, order).credits, sel, c) == LogAdds(q, now, threads, order, sel, c)
  {
    if order != [] {
      hide Weight, WalkThread, ThreadAdds, Ordered;
      var front, last := order[..|order| - 1], order[|order| - 1];
      CreditsFromLog(q, now, threads, front, sel, c);
      WalkedThreadAdds(q, last, now, threads[last], WalkThreads(q, now, threads, front), sel, c);
    }
  }

  // --------------------------------------------------------------------------------- the figures

  ghost function Under(p: Path): Path -> bool { (r: Path) => p <= r }

  ghost function Everywhere(): Path -> bool { (r: Path) => true }

  lemma {:induction false} ThroughIsUnder(ws: seq<Weighted>, p: Path)
    ensures WeightAt(ws, Through(), p) == WeightOf(ws, Under(p))
  {
    if ws != [] { ThroughIsUnder(ws[..|ws| - 1], p); }
  }

  lemma {:induction false} SumIsEverywhere(cs: seq<Credit>, c: Counter)
    ensures CreditSum(cs, c) == Weight(cs, Everywhere(), c)
  {
    hide Count;
    if cs != [] {
      SumIsEverywhere(cs[..|cs| - 1], c);
      assert Project(cs, c)[..|cs| - 1] == Project(cs[..|cs| - 1], c);
    }
  }

  /** Every counter of a tree node is the capped sum of what the log adds on paths through the node. */
  lemma NodeFromLog(q: Query, now: U64, threads: map<U32, ThreadStats>, order: seq<U32>, p: Path, c: Counter)
    requires p != [] && forall t :: t in order ==> t in threads
    requires FromSamples(c) ==> forall t :: t in order ==> Ordered(threads[t], now)
    ensures Count(At(Build(WalkThreads(q, now, threads, order).credits), p), c)
         == Min(U64_MAX, LogAdds(q, now, threads, order, Under(p), c))
  {
    hide WalkThreads, Build, Ordered, LogAdds, Under;
    var cs := WalkThreads(q, now, threads, order).credits;
    CreditsFromLog(q, now, threads, order, Under(p), c);
    NodeCounter(cs, p, c);
    ThroughIsUnder(Project(cs, c), p);
  }

  /** An address's total is what the log adds on paths that mention it, its self value on paths that end in it. */
  lemma TableFromLog(q: Query, now: U64, threads: map<U32, ThreadStats>, order: seq<U32>, a: Addr, c: Counter)
    requires forall t :: t in order ==> t in threads
    requires FromSamples(c) ==> forall t :: t in order ==> Ordered(threads[t], now)
    ensures var entry := Stats(BuildTable(WalkThreads(q, now, threads, order).credits), a);
            && Count(entry.total, c) == Min(U64_MAX, LogAdds(q, now, threads, order, Mentions(a), c))
            && Count(entry.own, c) == Min(U64_MAX, LogAdds(q, now, threads, order, LeafIs(a), c))
  {
    hide WalkThreads, BuildTable, Ordered, LogAdds, Mentions, LeafIs;
    var cs := WalkThreads(q, now, threads, order).credits;
    CreditsFromLog(q, now, threads, order, Mentions(a), c);
    CreditsFromLog(q, now, threads, order, LeafIs(a), c);
    TableCounter(cs, a, c);
  }

  /**
   The total of each off-CPU reason is the capped sum of the lengths of the intervals whose leaf
   frame is classified as it, those of target time and target spans the sums over the spans.
   */
  lemma PlainTotalFromLog(q: Query, now: U64, threads: map<U32, ThreadStats>, order: seq<U32>, c: Counter)
    requires Plain(c) && forall t :: t in order ==> t in threads
    ensures TotalOf(WalkThreads(q, now, threads, order).totals, c)
         == Min(U64_MAX, LogAdds(q, now, threads, order, Everywhere(), c))
  {
    hide WalkThreads, LogAdds, Everywhere, CreditSum, TotalOf;
    var cs := WalkThreads(q, now, threads, order).credits;
    BookedThreads(q, now, threads, order, c);
    SumIsEverywhere(cs, c);
    CreditsFromLog(q, now, threads, order, Everywhere(), c);
  }

  // ------------------------------------------------------------------------------ the on-CPU total

  /** An interval counts as a whole once its samples share it; what the division leaves over counts too. */
  function Counts(q: Query, tid: U32, now: U64, samples: seq<PetSample>, iv: RawInterval): nat {
    var lasts := Lasts(iv, now);
    if lasts == 0 || !AsksFor(q, tid, iv) then 0
    else match iv.kind
      case OffCpu(_, _, _) => 0
      case SyntheticSpan(_, _, _) => if q.keepInterval(tid, iv) then lasts else 0
      case OnCpu =>
        if 0 < |Inside(q, tid, samples, iv.startNs, iv.startNs + lasts, 0)| <= lasts then lasts else 0
  }

  function ThreadCounts(q: Query, tid: U32, now: U64, stats: ThreadStats, n: nat): nat
    requires n <= |stats.intervals|
  {
    if n == 0 then 0
    else ThreadCounts(q, tid, now, stats, n - 1) + Counts(q, tid, now, stats.petSamples, stats.intervals[n - 1])
  }

  function LogCounts(q: Query, now: U64, threads: map<U32, ThreadStats>, order: seq<U32>): nat
    requires forall t :: t in order ==> t in threads
  {
    if order == [] then 0
    else
      var last := order[|order| - 1];
      LogCounts(q, now, threads, order[..|order| - 1]) + ThreadCounts(q, last, now, threads[last], |threads[last].intervals|)
  }

  lemma TotalSnoc(slices: seq<Slice>, s: Slice)
    ensures SlicesTotal(slices + [s]) == SlicesTotal(slices) + s.ns
  {
    assert (slices + [s])[..|slices|] == slices;
  }

  lemma NaiveCounts(q: Query, tid: U32, now: U64, samples: seq<PetSample>, iv: RawInterval, w: Walk)
    ensures SlicesTotal(NaiveInterval(q, tid, now, samples, iv, w).slices)
         == SlicesTotal(w.slices) + Counts(q, tid, now, samples, iv)
  {
    hide SlicesTotal, Inside;
    DurationIsLasts(iv, now);
    var lasts := Lasts(iv, now);
    if lasts > 0 {
      match iv.kind
      case OnCpu =>
        var inside := Inside(q, tid, samples, iv.startNs, iv.startNs + lasts, 0);
        if inside != [] { Divides(lasts, |inside|); }
        TotalSnoc(w.slices, Slice(lasts, |inside|));
      case SyntheticSpan(_, _, _) => TotalSnoc(w.slices, Slice(lasts, 1));
      case OffCpu(_, _, _) =>
    }
  }

  lemma {:induction false} NaiveThreadCounts(q: Query, tid: U32, now: U64, stats: ThreadStats, n: nat, w: Walk)
    requires n <= |stats.intervals|
    ensures SlicesTotal(NaiveIntervals(q, tid, now, stats, n, w).slices)
         == SlicesTotal(w.slices) + ThreadCounts(q, tid, now, stats, n)
  {
    hide SlicesTotal, NaiveInterval, Counts;
    if n > 0 {
      NaiveThreadCounts(q, tid, now, stats, n - 1, w);
      NaiveCounts(q, tid, now, stats.petSamples, stats.intervals[n - 1], NaiveIntervals(q, tid, now, stats, n - 1, w));
    }
  }

  lemma {:induction false} SlicesFromLog(q: Query, now: U64, threads: map<U32, ThreadStats>, order: seq<U32>)
    requires forall t :: t in order ==> t in threads && Ordered(threads[t], now)
    ensures SlicesTotal(WalkThreads(q, now, threads, order).slices) == LogCounts(q, now, threads, order)
  {
    if order != [] {
      hide SlicesTotal, WalkIntervals, NaiveIntervals, ThreadCounts, TimeSorted, StartSorted;
      var front, last := order[..|order| - 1], order[|order| - 1];
      SlicesFromLog(q, now, threads, front);
      var stats, w := threads[last], WalkThreads(q, now, threads, front).(cursor := 0);
      WalkIsNaive(q, last, now, stats, |stats.intervals|, w);
      NaiveThreadCounts(q, last, now, stats, |stats.intervals|, w);
    }
  }

  /** The on-CPU total is the capped sum of the lengths of the intervals that were shared, and of the spans. */
  lemma OnCpuTotalFromLog(q: Query, now: U64, threads: map<U32, ThreadStats>, order: seq<U32>)
    requires forall t :: t in order ==> t in threads && Ordered(threads[t], now)
    ensures WalkThreads(q, now, threads, order).totals.onCpuNs == Min(U64_MAX, LogCounts(q, now, threads, order))
  {
    hide WalkThreads, LogCounts, Ordered, SlicesTotal;
    BalancedThreads(q, now, threads, order);
    SlicesFromLog(q, now, threads, order);
  }

  // ------------------------------------------------------------------------- from the record calls

  /** A query's now is the greatest timestamp of all events, zero without any. */
  ghost predicate IsNow(times: seq<U64>, now: U64) {
    if times == [] then now == 0 else IsGreatest(times, now)
  }

  /** Events are recorded, then a query is asked: its totals are those of the newest events of each thread. */
  method QueryLog(calls: seq<Call>, q: Query)
    returns (agg: A.Aggregation, order: seq<U32>, ghost threads: map<U32, ThreadStats>, ghost now: U64)
    ensures fresh(agg) && agg.Valid() && ThreadsHold(threads, calls) && IsNow(TimesOf(calls), now)
    ensures (forall t :: t in order <==> t in threads) && forall i, j :: 0 <= i < j < |order| ==> order[i] != order[j]
    ensures forall c :: Plain(c) ==> TotalOf(agg.totals, c) == Min(U64_MAX, LogAdds(q, now, threads, order, Everywhere(), c))
  {
    hide A.Aggregation.Valid, WalkThreads, LogAdds, Everywhere, ThreadsHold, TotalOf;
    var live := new A.Aggregator();
    Record(live, calls);
    threads, now := live.threads, Now(live.lastEventNs);
    agg, order := live.Aggregate(q);
    forall c | Plain(c) ensures TotalOf(agg.totals, c) == Min(U64_MAX, LogAdds(q, now, threads, order, Everywhere(), c)) {
      PlainTotalFromLog(q, now, threads, order, c);
    }
  }
}
