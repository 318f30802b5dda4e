/**
 What the aggregation's walk means: it finds exactly the samples a plain filter would find,
 no sample is credited twice, and no time is invented or lost unaccounted for.
 */
module AggregatorLaws {
  import opened Numbers
  import opened Options
  import opened Sums
  import opened CallTrie
  import opened PathSums
  import opened TopTable
  import opened Aggregator

  // ------------------------------------------------------------ the walk is a plain filter

  /** Every sample inside `[start, end)` that passes the filter, found by looking at them all. */
  function Inside(q: Query, tid: U32, samples: seq<PetSample>, start: U64, end: U64, idx: nat): seq<PetSample>
    requires idx <= |samples|
    decreases |samples| - idx
  {
    if idx == |samples| then []
    else
      (if start <= samples[idx].timestampNs < end && q.keepSample(tid, samples[idx]) then [samples[idx]] else [])
      + Inside(q, tid, samples, start, end, idx + 1)
  }

  /** The walk with the cursor replaced by the filter. */
  function NaiveInterval(q: Query, tid: U32, now: U64, samples: seq<PetSample>, iv: RawInterval, w: Walk): Walk {
    var duration := DurationOf(iv, now);
    if duration == 0 then w
    else match iv.kind
      case OnCpu =>
        if q.tid.Some? && q.tid.value != tid then w
        else Spread(w, duration, Inside(q, tid, samples, iv.startNs, EndOf(iv, now), 0))
      case SyntheticSpan(_, _, _) => WalkSpan(q, tid, iv, duration, w)
      case OffCpu(_, _, _) => WalkOffCpu(q, tid, iv, duration, w)
  }

  function NaiveIntervals(q: Query, tid: U32, now: U64, stats: ThreadStats, n: nat, w: Walk): Walk
    requires n <= |stats.intervals|
  {
    if n == 0 then w
    else NaiveInterval(q, tid, now, stats.petSamples, stats.intervals[n - 1], NaiveIntervals(q, tid, now, stats, n - 1, w))
  }

  ghost predicate TimeSorted(samples: seq<PetSample>) {
    forall i, j :: 0 <= i < j < |samples| ==> samples[i].timestampNs <= samples[j].timestampNs
  }

  /** An on-CPU interval the walk does not skip. */
  predicate Live(iv: RawInterval, now: U64) {
    iv.kind.OnCpu? && DurationOf(iv, now) > 0
  }

  /** The on-CPU intervals come in order of their start; other kinds may stand anywhere. */
  ghost predicate StartSorted(ivs: seq<RawInterval>, now: U64) {
    forall i, j :: 0 <= i < j < |ivs| && Live(ivs[i], now) && Live(ivs[j], now) ==> ivs[i].startNs <= ivs[j].startNs
  }

  ghost predicate Behind(samples: seq<PetSample>, cursor: nat, start: U64) {
    cursor <= |samples| && forall k :: 0 <= k < cursor ==> samples[k].timestampNs < start
  }

  lemma {:induction false} AdvanceStops(samples: seq<PetSample>, cursor: nat, start: U64)
    requires Behind(samples, cursor, start)
    ensures var c := AdvanceCursor(samples, cursor, start);
            Behind(samples, c, start) && (c < |samples| ==> start <= samples[c].timestampNs)
    decreases |samples| - cursor
  {
    if cursor < |samples| && samples[cursor].timestampNs < start {
      AdvanceStops(samples, cursor + 1, start);
    }
  }

  lemma {:induction false} InsideSkips(q: Query, tid: U32, samples: seq<PetSample>, start: U64, end: U64, idx: nat, c: nat)
    requires idx <= c && Behind(samples, c, start)
    ensures Inside(q, tid, samples, start, end, idx) == Inside(q, tid, samples, start, end, c)
    decreases c - idx
  {
    if idx < c {
      InsideSkips(q, tid, samples, start, end, idx + 1, c);
    }
  }

  lemma {:induction false} InsideEnds(q: Query, tid: U32, samples: seq<PetSample>, start: U64, end: U64, idx: nat)
    requires idx <= |samples| && forall k :: idx <= k < |samples| ==> end <= samples[k].timestampNs
    ensures Inside(q, tid, samples, start, end, idx) == []
    decreases |samples| - idx
  {
    if idx < |samples| {
      InsideEnds(q, tid, samples, start, end, idx + 1);
    }
  }

  lemma {:induction false} MatchingIsInside(q: Query, tid: U32, samples: seq<PetSample>, start: U64, end: U64, idx: nat)
    requires TimeSorted(samples) && idx <= |samples|
    requires idx < |samples| ==> start <= samples[idx].timestampNs
    ensures Matching(q, tid, samples, idx, end) == Inside(q, tid, samples, start, end, idx)
    decreases |samples| - idx
  {
    if idx < |samples| {
      if samples[idx].timestampNs < end {
        MatchingIsInside(q, tid, samples, start, end, idx + 1);
      } else {
        InsideEnds(q, tid, samples, start, end, idx);
      }
    }
  }

  /** The cursor never passes a sample that a later interval could still need. */
  lemma {:induction false} CursorStaysBehind(q: Query, tid: U32, now: U64, stats: ThreadStats, n: nat, w: Walk, j: nat)
    requires StartSorted(stats.intervals, now) && n <= j < |stats.intervals| && Live(stats.intervals[j], now)
    requires w.cursor == 0
    ensures Behind(stats.petSamples, WalkIntervals(q, tid, now, stats, n, w).cursor, stats.intervals[j].startNs)
  {
    if n > 0 {
      CursorStaysBehind(q, tid, now, stats, n - 1, w, j);
      var iv, w1 := stats.intervals[n - 1], WalkIntervals(q, tid, now, stats, n - 1, w);
      if Live(iv, now) {
        CursorStaysBehind(q, tid, now, stats, n - 1, w, n - 1);
        AdvanceStops(stats.petSamples, w1.cursor, iv.startNs);
      }
    }
  }

  /** For time-sorted streams the two-cursor walk is the plain filter, interval by interval. */
  lemma {:induction false} WalkIsNaive(q: Query, tid: U32, now: U64, stats: ThreadStats, n: nat, w: Walk)
    requires TimeSorted(stats.petSamples) && StartSorted(stats.intervals, now)
    requires n <= |stats.intervals| && w.cursor == 0
    ensures WalkIntervals(q, tid, now, stats, n, w).(cursor := 0) == NaiveIntervals(q, tid, now, stats, n, w)
  {
    if n > 0 {
      WalkIsNaive(q, tid, now, stats, n - 1, w);
      var samples, iv, w1 := stats.petSamples, stats.intervals[n - 1], WalkIntervals(q, tid, now, stats, n - 1, w);
      if Live(iv, now) {
        CursorStaysBehind(q, tid, now, stats, n - 1, w, n - 1);
        AdvanceStops(samples, w1.cursor, iv.startNs);
        var c, end := AdvanceCursor(samples, w1.cursor, iv.startNs), EndOf(iv, now);
        MatchingIsInside(q, tid, samples, iv.startNs, end, c);
        InsideSkips(q, tid, samples, iv.startNs, end, 0, c);
      }
    }
  }

  // ---------------------------------------------------------- no sample is credited twice

  /** Positions of the samples that `Inside` finds. */
  function InsideAt(q: Query, tid: U32, samples: seq<PetSample>, start: U64, end: U64, idx: nat): seq<nat>
    requires idx <= |samples|
    decreases |samples| - idx
  {
    if idx == |samples| then []
    else
      (if start <= samples[idx].timestampNs < end && q.keepSample(tid, samples[idx]) then [idx] else [])
      + InsideAt(q, tid, samples, start, end, idx + 1)
  }

  lemma {:induction false} InsideAtFinds(q: Query, tid: U32, samples: seq<PetSample>, start: U64, end: U64, idx: nat)
    requires idx <= |samples|
    ensures var at := InsideAt(q, tid, samples, start, end, idx);
            && |at| == |Inside(q, tid, samples, start, end, idx)|
            && (forall k :: 0 <= k < |at| ==>
                  (idx <= at[k] < |samples| && samples[at[k]] == Inside(q, tid, samples, start, end, idx)[k]
                   && start <= samples[at[k]].timestampNs < end))
            && (forall k, l :: 0 <= k < l < |at| ==> at[k] < at[l])
    decreases |samples| - idx
  {
    if idx < |samples| {
      InsideAtFinds(q, tid, samples, start, end, idx + 1);
    }
  }

  /** Positions of all samples found for the first `n` intervals' on-CPU time, in order of use. */
  function UsedAt(q: Query, tid: U32, now: U64, stats: ThreadStats, n: nat): seq<nat>
    requires n <= |stats.intervals|
  {
    if n == 0 then []
    else
      var iv := stats.intervals[n - 1];
      UsedAt(q, tid, now, stats, n - 1)
      + if Live(iv, now) then InsideAt(q, tid, stats.petSamples, iv.startNs, EndOf(iv, now), 0) else []
  }

  ghost predicate DisjointAscending(ivs: seq<RawInterval>, now: U64) {
    forall i, j :: 0 <= i < j < |ivs| && Live(ivs[i], now) && Live(ivs[j], now) ==> EndOf(ivs[i], now) <= ivs[j].startNs
  }

  /** Positions into the time-sorted samples, ascending, and all before time `t`. */
  ghost predicate AscendingBefore(samples: seq<PetSample>, used: seq<nat>, t: int) {
    && (forall k :: 0 <= k < |used| ==> used[k] < |samples| && samples[used[k]].timestampNs < t)
    && (forall k, l :: 0 <= k < l < |used| ==> used[k] < used[l])
  }

  lemma AscendingJoin(samples: seq<PetSample>, a: seq<nat>, b: seq<nat>, t: int, u: int)
    requires TimeSorted(samples) && AscendingBefore(samples, a, t) && AscendingBefore(samples, b, u) && t <= u
    requires forall k :: 0 <= k < |b| ==> t <= samples[b[k]].timestampNs
    ensures AscendingBefore(samples, a + b, u)
  {
    forall k, l | 0 <= k < |a| && 0 <= l < |b| ensures a[k] < b[l] {
      assert samples[a[k]].timestampNs < samples[b[l]].timestampNs;
    }
  }

  lemma AscendingLater(samples: seq<PetSample>, used: seq<nat>, t: int, u: int)
    requires AscendingBefore(samples, used, t) && t <= u
    ensures AscendingBefore(samples, used, u)
  {
  }

  lemma InsideAscends(q: Query, tid: U32, samples: seq<PetSample>, start: U64, end: U64)
    ensures var at := InsideAt(q, tid, samples, start, end, 0);
            AscendingBefore(samples, at, end) && forall k :: 0 <= k < |at| ==> start <= samples[at[k]].timestampNs
  {
    InsideAtFinds(q, tid, samples, start, end, 0);
    hide InsideAt, Inside;
  }

  lemma LiveIsNotEmpty(iv: RawInterval, now: U64)
    requires Live(iv, now)
    ensures iv.startNs <= EndOf(iv, now)
  {
  }

  /**
   With disjoint on-CPU intervals no sample is used by two of them: the positions used over
   the whole thread strictly ascend.
   */
  lemma {:induction false} NoSampleUsedTwice(q: Query, tid: U32, now: U64, stats: ThreadStats, n: nat)
    requires n <= |stats.intervals| && TimeSorted(stats.petSamples) && DisjointAscending(stats.intervals, now)
    ensures AscendingBefore(stats.petSamples, UsedAt(q, tid, now, stats, n), U64_MAX + 1)
    ensures forall j :: n <= j < |stats.intervals| && Live(stats.intervals[j], now) ==>
              AscendingBefore(stats.petSamples, UsedAt(q, tid, now, stats, n), stats.intervals[j].startNs)
  {
    hide InsideAt, TimeSorted, AscendingBefore, Live, EndOf;
    var samples := stats.petSamples;
    if n == 0 {
      NothingUsed(samples);
    } else {
      NoSampleUsedTwice(q, tid, now, stats, n - 1);
      var iv, used := stats.intervals[n - 1], UsedAt(q, tid, now, stats, n - 1);
      if Live(iv, now) {
        var end := EndOf(iv, now);
        var inside := InsideAt(q, tid, samples, iv.startNs, end, 0);
        InsideAscends(q, tid, samples, iv.startNs, end);
        LiveIsNotEmpty(iv, now);
        AscendingJoin(samples, used, inside, iv.startNs, end);
        forall t: int | end <= t ensures AscendingBefore(samples, used + inside, t) {
          AscendingLater(samples, used + inside, end, t);
        }
      } else {
        assert used + [] == used;
      }
    }
  }

  lemma NothingUsed(samples: seq<PetSample>)
    ensures forall t: int :: AscendingBefore(samples, [], t)
  {
  }

  // ------------------------------------------------------------------- time conservation

  /** All time added to the on-CPU total, without a bound. */
  function SlicesTotal(slices: seq<Slice>): nat {
    if slices == [] then 0 else SlicesTotal(slices[..|slices| - 1]) + slices[|slices| - 1].ns
  }

  /** The remainders of dividing intervals into equal credits: time that reaches no stack. */
  function SlicesLost(slices: seq<Slice>): nat
    requires forall s :: s in slices ==> s.shares > 0
  {
    if slices == [] then 0
    else SlicesLost(slices[..|slices| - 1]) + slices[|slices| - 1].ns % slices[|slices| - 1].shares
  }

  /** What the credits add to a counter, without a bound. */
  function CreditSum(cs: seq<Credit>, c: Counter): nat {
    if cs == [] then 0 else CreditSum(cs[..|cs| - 1], c) + Count(cs[|cs| - 1].delta, c)
  }

  /** What is credited to empty stacks: in the totals, but on no node. */
  function EmptyStackSum(cs: seq<Credit>, c: Counter): nat {
    if cs == [] then 0
    else EmptyStackSum(cs[..|cs| - 1], c) + if cs[|cs| - 1].stack == [] then Count(cs[|cs| - 1].delta, c) else 0
  }

  /** What is on the books: the total is the credits plus the remainders, capped in the counter. */
  ghost predicate Balanced(w: Walk) {
    && (forall s :: s in w.slices ==> s.shares > 0)
    && SlicesTotal(w.slices) == CreditSum(w.credits, OnCpuNs) + SlicesLost(w.slices)
    && w.totals.onCpuNs == Min(U64_MAX, SlicesTotal(w.slices))
    && (forall c :: c in w.credits ==> c.delta.targetNs <= c.delta.onCpuNs)
  }

  lemma {:induction false} CreditSumConcat(a: seq<Credit>, b: seq<Credit>, c: Counter)
    ensures CreditSum(a + b, c) == CreditSum(a, c) + CreditSum(b, c)
  {
    hide Count;
    if b == [] {
      assert a + b == a;
    } else {
      assert (a + b)[..|a + b| - 1] == a + b[..|b| - 1];
      CreditSumConcat(a, b[..|b| - 1], c);
    }
  }

  lemma CreditSumOne(credit: Credit, c: Counter)
    ensures CreditSum([credit], c) == Count(credit.delta, c)
  {
    hide Count;
    assert [credit][..0] == [];
  }

  /** An on-CPU interval's samples all get the same share of time, and no target or off-CPU time. */
  lemma {:induction false} SampleCreditSum(matching: seq<PetSample>, ns: U64, c: Counter)
    requires c.OnCpuNs? || Plain(c)
    ensures CreditSum(SampleCredits(matching, ns), c) == if c.OnCpuNs? then |matching| * ns else 0
  {
    if matching != [] {
      var front := matching[..|matching| - 1];
      assert SampleCredits(matching, ns)[..|matching| - 1] == SampleCredits(front, ns);
      SampleCreditSum(front, ns, c);
    }
  }

  lemma BalancedAfter(w: Walk, cs: seq<Credit>, s: Slice, w': Walk)
    requires Balanced(w) && s.shares > 0 && CreditSum(cs, OnCpuNs) + s.ns % s.shares == s.ns
    requires forall c :: c in cs ==> c.delta.targetNs <= c.delta.onCpuNs
    requires w'.credits == w.credits + cs && w'.slices == w.slices + [s]
    requires w'.totals.onCpuNs == SatAdd(w.totals.onCpuNs, s.ns)
    ensures Balanced(w')
  {
    CreditSumConcat(w.credits, cs, OnCpuNs);
    assert w'.slices[..|w'.slices| - 1] == w.slices;
  }

  lemma SharesAndRemainder(duration: int, n: int)
    requires n > 0
    ensures n * (duration / n) + duration % n == duration
  {
  }

  lemma BalancedSpread(w: Walk, duration: U64, matching: seq<PetSample>)
    requires Balanced(w)
    ensures Balanced(Spread(w, duration, matching))
  {
    var w' := Spread(w, duration, matching);
    if w' != w {
      var n, ns := |matching|, duration / |matching|;
      SampleCreditSum(matching, ns, OnCpuNs);
      SharesAndRemainder(duration, n);
      hide SampleCredits, Balanced;
      BalancedAfter(w, SampleCredits(matching, ns), Slice(duration, n), w');
    }
  }

  lemma BalancedOne(w: Walk, c: Credit, slices: seq<Slice>, totals: Totals)
    requires Balanced(w) && c.delta.targetNs <= c.delta.onCpuNs
    requires (slices == [] && c.delta.onCpuNs == 0) || slices == [Slice(c.delta.onCpuNs, 1)]
    requires totals.onCpuNs == SatAdd(w.totals.onCpuNs, c.delta.onCpuNs)
    ensures Balanced(w.(credits := w.credits + [c], totals := totals, slices := w.slices + slices))
  {
    CreditSumOne(c, OnCpuNs);
    if slices == [] {
      CreditSumConcat(w.credits, [c], OnCpuNs);
      assert w.slices + slices == w.slices;
    } else {
      BalancedAfter(w, [c], slices[0], w.(credits := w.credits + [c], totals := totals, slices := w.slices + slices));
    }
  }

  lemma BalancedInterval(q: Query, tid: U32, now: U64, samples: seq<PetSample>, iv: RawInterval, w: Walk)
    requires Balanced(w) && w.cursor <= |samples|
    ensures Balanced(WalkInterval(q, tid, now, samples, iv, w))
  {
    hide Balanced;
    var w', duration := WalkInterval(q, tid, now, samples, iv, w), DurationOf(iv, now);
    if duration != 0 && iv.kind.OnCpu? {
      assert Balanced(w.(cursor := w'.cursor)) by { BalancedCursor(w, w'.cursor); }
      BalancedSpread(w.(cursor := w'.cursor), duration, Matching(q, tid, samples, w'.cursor, EndOf(iv, now)));
    } else if w' != w {
      var c := w'.credits[|w.credits|];
      BalancedOne(w, c, if iv.kind.OffCpu? then [] else [Slice(duration, 1)], w'.totals);
      assert w.slices + [] == w.slices;
    }
  }

  lemma BalancedCursor(w: Walk, cursor: nat)
    requires Balanced(w)
    ensures Balanced(w.(cursor := cursor))
  {
  }

  lemma {:induction false} BalancedIntervals(q: Query, tid: U32, now: U64, stats: ThreadStats, n: nat, w: Walk)
    requires Balanced(w) && w.cursor == 0 && n <= |stats.intervals|
    ensures Balanced(WalkIntervals(q, tid, now, stats, n, w))
  {
    if n > 0 {
      BalancedIntervals(q, tid, now, stats, n - 1, w);
      BalancedInterval(q, tid, now, stats.petSamples, stats.intervals[n - 1], WalkIntervals(q, tid, now, stats, n - 1, w));
    }
  }

  lemma {:induction false} BalancedThreads(q: Query, now: U64, threads: map<U32, ThreadStats>, order: seq<U32>)
    requires forall t :: t in order ==> t in threads
    ensures Balanced(WalkThreads(q, now, threads, order))
  {
    if order != [] {
      var front, last := order[..|order| - 1], order[|order| - 1];
      BalancedThreads(q, now, threads, front);
      BalancedIntervals(q, last, now, threads[last], |threads[last].intervals|,
                        WalkThreads(q, now, threads, front).(cursor := 0));
    }
  }

  lemma {:induction false} CreditSumByNode(cs: seq<Credit>, c: Counter)
    ensures WeightAt(Project(cs, c), Through(), []) == CreditSum(cs, c)
    ensures WeightAt(Project(cs, c), Ending(), []) == EmptyStackSum(cs, c)
  {
    hide Count, Reverse;
    if cs != [] {
      var front, last, ws := cs[..|cs| - 1], cs[|cs| - 1], Project(cs, c);
      CreditSumByNode(front, c);
      assert ws[..|cs| - 1] == Project(front, c) && ws[|cs| - 1] == Weighted(PathOf(last), Count(last.delta, c));
      assert PathOf(last) == [] <==> last.stack == [];
      assert Through()([], PathOf(last)) && (Ending()([], PathOf(last)) <==> PathOf(last) == []);
      hide Project, PathOf, Through, Ending;
    }
  }

  lemma {:induction false} NodeWithinRoot(ws: seq<Weighted>, p: Path)
    ensures WeightAt(ws, Through(), p) <= WeightAt(ws, Through(), [])
  {
    if ws != [] {
      NodeWithinRoot(ws[..|ws| - 1], p);
    }
  }

  /**
   Time conservation. Unless it saturated, the on-CPU total is what the root's children
   show, plus the remainders of the divisions, plus what went to empty stacks.
   */
  lemma TotalIsAccountedFor(q: Query, now: U64, threads: map<U32, ThreadStats>, order: seq<U32>)
    requires forall t :: t in order ==> t in threads
    requires SlicesTotal(WalkThreads(q, now, threads, order).slices) <= U64_MAX
    ensures var w := WalkThreads(q, now, threads, order);
            && (forall s :: s in w.slices ==> s.shares > 0)
            && w.totals.onCpuNs == MapSum(ChildrenOf(NodeCounts(Build(w.credits), OnCpuNs), []))
                                   + SlicesLost(w.slices) + EmptyStackSum(w.credits, OnCpuNs)
  {
    hide WalkThreads, MapSum, Build, NodeCounts, ChildrenOf;
    BalancedThreads(q, now, threads, order);
    RootChildren(WalkThreads(q, now, threads, order).credits, OnCpuNs);
  }

  lemma RootChildren(cs: seq<Credit>, c: Counter)
    requires CreditSum(cs, c) <= U64_MAX
    ensures MapSum(ChildrenOf(NodeCounts(Build(cs), c), [])) + EmptyStackSum(cs, c) == CreditSum(cs, c)
  {
    hide Count, MapSum, WeightAt, Build, Project, Nodes, CreditSum, EmptyStackSum;
    var ws, t := Project(cs, c), Build(cs);
    CreditSumByNode(cs, c);
    BuildNodes(cs, c);
    forall p | p in t && p != [] ensures Count(t[p], c) == WeightAt(ws, Through(), p) {
      NodeCounter(cs, p, c);
      NodeWithinRoot(ws, p);
    }
    ChildrenOfSum(NodeCounts(t, c), ws, []);
  }

  // ------------------------------------------------------- target time, and each off-CPU reason

  /** The counters that a total is kept for and no division takes a remainder from. */
  predicate Plain(c: Counter) {
    c.TargetNs? || c.TargetSpans? || c.OffCpuNs?
  }

  /** A total by the name of its counter. */
  function TotalOf(t: Totals, c: Counter): U64
    requires Plain(c)
  {
    Count(Tally(0, t.targetNs, t.offCpu, 0, t.targetSpans, 0, NO_PMC, None), c)
  }

  /** The total is what the credits add up to, capped in the counter. */
  ghost predicate Booked(w: Walk, c: Counter)
    requires Plain(c)
  {
    TotalOf(w.totals, c) == Min(U64_MAX, CreditSum(w.credits, c))
  }

  lemma BookedAfter(w: Walk, cs: seq<Credit>, w': Walk, c: Counter)
    requires Plain(c) && Booked(w, c) && w'.credits == w.credits + cs
    requires TotalOf(w'.totals, c) == Min(U64_MAX, TotalOf(w.totals, c) + CreditSum(cs, c))
    ensures Booked(w', c)
  {
    hide CreditSum, TotalOf;
    CreditSumConcat(w.credits, cs, c);
  }

  lemma BookedSpread(w: Walk, duration: U64, matching: seq<PetSample>, c: Counter)
    requires Plain(c) && Booked(w, c)
    ensures Booked(Spread(w, duration, matching), c)
  {
    var w' := Spread(w, duration, matching);
    if w' != w {
      var ns := duration / |matching|;
      SampleCreditSum(matching, ns, c);
      BookedAfter(w, SampleCredits(matching, ns), w', c);
    }
  }

  lemma BookedSpan(q: Query, tid: U32, iv: RawInterval, duration: U64, w: Walk, c: Counter)
    requires Plain(c) && Booked(w, c) && iv.kind.SyntheticSpan?
    ensures Booked(WalkSpan(q, tid, iv, duration, w), c)
  {
    var w' := WalkSpan(q, tid, iv, duration, w);
    if w' != w {
      var credit := w'.credits[|w.credits|];
      CreditSumOne(credit, c);
      BookedAfter(w, [credit], w', c);
    }
  }

  lemma ReasonCounts(o: CallTrie.OffCpu, reason: Reason, ns: U64, c: Counter, spans: U64, targetNs: U64)
    requires Plain(c)
    ensures var before, after := Totals(0, targetNs, spans, o), Totals(0, targetNs, spans, o.AddReason(reason, ns));
            TotalOf(after, c) == Min(U64_MAX, TotalOf(before, c) + Count(OffCpuDelta(reason, ns), c))
  {
  }

  lemma BookedOffCpu(q: Query, tid: U32, iv: RawInterval, duration: U64, w: Walk, c: Counter)
    requires Plain(c) && Booked(w, c) && iv.kind.OffCpu?
    ensures Booked(WalkOffCpu(q, tid, iv, duration, w), c)
  {
    var w' := WalkOffCpu(q, tid, iv, duration, w);
    if w' != w {
      var credit := w'.credits[|w.credits|];
      CreditSumOne(credit, c);
      ReasonCounts(w.totals.offCpu, BlockReason(q, iv.kind.stack), duration, c, w.totals.targetSpans, w.totals.targetNs);
      BookedAfter(w, [credit], w', c);
    }
  }

  lemma {:induction false} BookedIntervals(q: Query, tid: U32, now: U64, stats: ThreadStats, n: nat, w: Walk, c: Counter)
    requires Plain(c) && Booked(w, c) && w.cursor == 0 && n <= |stats.intervals|
    ensures Booked(WalkIntervals(q, tid, now, stats, n, w), c)
  {
    hide Booked, WalkSpan, WalkOffCpu;
    if n > 0 {
      BookedIntervals(q, tid, now, stats, n - 1, w, c);
      var before, iv := WalkIntervals(q, tid, now, stats, n - 1, w), stats.intervals[n - 1];
      var duration, cursor := DurationOf(iv, now), AdvanceCursor(stats.petSamples, before.cursor, iv.startNs);
      BookedCursor(before, cursor, c);
      match iv.kind
      case OnCpu =>
        BookedSpread(before.(cursor := cursor), duration, Matching(q, tid, stats.petSamples, cursor, EndOf(iv, now)), c);
      case SyntheticSpan(_, _, _) => BookedSpan(q, tid, iv, duration, before, c);
      case OffCpu(_, _, _) => BookedOffCpu(q, tid, iv, duration, before, c);
    }
  }

  lemma BookedCursor(w: Walk, cursor: nat, c: Counter)
    requires Plain(c)
    ensures Booked(w.(cursor := cursor), c) <==> Booked(w, c)
  {
  }

  lemma {:induction false} BookedThreads(q: Query, now: U64, threads: map<U32, ThreadStats>, order: seq<U32>, c: Counter)
    requires Plain(c) && forall t :: t in order ==> t in threads
    ensures Booked(WalkThreads(q, now, threads, order), c)
  {
    if order != [] {
      hide Booked;
      var front, last := order[..|order| - 1], order[|order| - 1];
      BookedThreads(q, now, threads, front, c);
      BookedCursor(WalkThreads(q, now, threads, front), 0, c);
      BookedIntervals(q, last, now, threads[last], |threads[last].intervals|,
                      WalkThreads(q, now, threads, front).(cursor := 0), c);
    }
  }

  /**
   Conservation without a remainder: unless it saturated, the total of target time, of target
   spans and of each off-CPU reason is what the root's children show, plus what went to empty stacks.
   */
  lemma PlainTotalIsAccountedFor(q: Query, now: U64, threads: map<U32, ThreadStats>, order: seq<U32>, c: Counter)
    requires Plain(c) && forall t :: t in order ==> t in threads
    requires CreditSum(WalkThreads(q, now, threads, order).credits, c) <= U64_MAX
    ensures var w := WalkThreads(q, now, threads, order);
            TotalOf(w.totals, c)
            == MapSum(ChildrenOf(NodeCounts(Build(w.credits), c), [])) + EmptyStackSum(w.credits, c)
  {
    hide WalkThreads, MapSum, Build, NodeCounts, ChildrenOf, TotalOf;
    BookedThreads(q, now, threads, order, c);
    RootChildren(WalkThreads(q, now, threads, order).credits, c);
  }

  /** A node below the root has at least what its children have together exactly if that sum fits a counter. */
  lemma NodeCoversChildren(cs: seq<Credit>, p: Path, c: Counter)
    requires p != [] && p in Build(cs)
    ensures var together := MapSum(ChildrenOf(NodeCounts(Build(cs), c), p));
            Count(Build(cs)[p], c) >= together <==> together <= U64_MAX
  {
    hide Count, MapSum, WeightAt, Build, Project, Nodes;
    var ws, t := Project(cs, c), Build(cs);
    BuildNodes(cs, c);
    forall r | r in t && r != [] ensures Count(t[r], c) == Min(U64_MAX, WeightAt(ws, Through(), r)) {
      NodeCounter(cs, r, c);
    }
    NodeIsChildrenPlusEnding(ws, p);
    MapSumBelow(ChildrenOf(NodeCounts(t, c), p), Weights(ws, ChildOf(p), Through()));
  }

  /** A node's target time is part of its on-CPU time, saturated or not. */
  lemma TargetWithinOnCpu(q: Query, now: U64, threads: map<U32, ThreadStats>, order: seq<U32>, p: Path)
    requires forall t :: t in order ==> t in threads
    ensures var node := At(Build(WalkThreads(q, now, threads, order).credits), p); node.targetNs <= node.onCpuNs
  {
    hide WalkThreads, Build, SumAt;
    var cs := WalkThreads(q, now, threads, order).credits;
    BalancedThreads(q, now, threads, order);
    BuildTally(cs, p);
    TargetWithinSum(cs, p);
  }

  lemma {:induction false} TargetWithinSum(cs: seq<Credit>, p: Path)
    requires forall c :: c in cs ==> c.delta.targetNs <= c.delta.onCpuNs
    ensures SumAt(cs, p).targetNs <= SumAt(cs, p).onCpuNs
  {
    if cs != [] {
      TargetWithinSum(cs[..|cs| - 1], p);
    }
  }
}
