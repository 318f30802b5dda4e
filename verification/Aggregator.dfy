/**
 The event log and its aggregation. Nothing is aggregated while events arrive; a query
 walks each thread's samples and intervals with two cursors and credits time to stacks.
 The walk is specified by a function from the log to the list of credits it issues.
 */
module Aggregator {
  import opened Numbers
  import opened Options
  import opened CallTrie
  import opened TopTable
  import opened StackTree

  datatype PetSample = PetSample(timestampNs: U64, stack: seq<Addr>, kernelStack: seq<Addr>, pmc: Pmc)

  datatype IntervalKind =
    | OnCpu
    | SyntheticSpan(stack: seq<Addr>, originTid: Option<U32>, laneKind: LaneKind)
    | OffCpu(stack: seq<Addr>, wakerTid: Option<U32>, wakerUserStack: Option<seq<Addr>>)

  /** `endNs == 0` means the interval is still open. */
  datatype RawInterval = RawInterval(startNs: U64, endNs: U64, kind: IntervalKind)

  datatype ThreadStats = ThreadStats(petSamples: seq<PetSample>, intervals: seq<RawInterval>)

  const MAX_EVENTS_PER_THREAD := 100_000

  /** What a caller asks for: a thread or all, the filter, and how a blocked leaf is classified. */
  datatype Query = Query(
    tid: Option<U32>,
    keepSample: (U32, PetSample) -> bool,
    keepInterval: (U32, RawInterval) -> bool,
    classify: Option<Addr> -> Reason)

  datatype Totals = Totals(onCpuNs: U64, targetNs: U64, targetSpans: U64, offCpu: CallTrie.OffCpu)

  const NO_TOTALS := Totals(0, 0, 0, NO_OFF_CPU)

  // ----------------------------------------------------------------- the walk, as a function

  /** Time that was added to the on-CPU total, and over how many equal credits it was spread. */
  datatype Slice = Slice(ns: U64, shares: nat)

  datatype Walk = Walk(cursor: nat, credits: seq<Credit>, totals: Totals, slices: seq<Slice>)

  function EndOf(iv: RawInterval, now: U64): U64 {
    if iv.endNs == 0 then (if now >= iv.startNs then now else iv.startNs) else iv.endNs
  }

  function DurationOf(iv: RawInterval, now: U64): U64 {
    SatSub(EndOf(iv, now), iv.startNs)
  }

  function AdvanceCursor(samples: seq<PetSample>, cursor: nat, start: U64): (c: nat)
    requires cursor <= |samples|
    ensures cursor <= c <= |samples|
    decreases |samples| - cursor
  {
    if cursor < |samples| && samples[cursor].timestampNs < start
    then AdvanceCursor(samples, cursor + 1, start) else cursor
  }

  function Matching(q: Query, tid: U32, samples: seq<PetSample>, idx: nat, end: U64): seq<PetSample>
    requires idx <= |samples|
    decreases |samples| - idx
  {
    if idx < |samples| && samples[idx].timestampNs < end then
      (if q.keepSample(tid, samples[idx]) then [samples[idx]] else [])
      + Matching(q, tid, samples, idx + 1, end)
    else []
  }

  function SampleCredit(s: PetSample, ns: U64): Credit {
    Credit(s.stack, OnCpuDelta(ns, s.pmc, false, None))
  }

  function SampleCredits(matching: seq<PetSample>, ns: U64): (cs: seq<Credit>)
    ensures |cs| == |matching| && forall i :: 0 <= i < |cs| ==> cs[i] == SampleCredit(matching[i], ns)
  {
    seq(|matching|, i requires 0 <= i < |matching| => SampleCredit(matching[i], ns))
  }

  /** A target span is shown as its own lane: at most its two leaf-most frames. */
  function TargetLaneStack(stack: seq<Addr>): seq<Addr> {
    stack[..Min(|stack|, 2)]
  }

  /** An on-CPU interval's time goes in equal parts to the samples found inside it. */
  function Spread(w: Walk, duration: U64, matching: seq<PetSample>): Walk {
    if matching == [] || duration / |matching| == 0 then w
    else w.(credits := w.credits + SampleCredits(matching, duration / |matching|),
            totals := w.totals.(onCpuNs := SatAdd(w.totals.onCpuNs, duration)),
            slices := w.slices + [Slice(duration, |matching|)])
  }

  function WalkSpan(q: Query, tid: U32, iv: RawInterval, duration: U64, w: Walk): Walk
    requires iv.kind.SyntheticSpan?
  {
    if q.tid.Some? && q.tid.value != tid && q.tid != iv.kind.originTid then w
    else if !q.keepInterval(tid, iv) then w
    else
      w.(credits := w.credits + [Credit(TargetLaneStack(iv.kind.stack),
                                        OnCpuDelta(duration, NO_PMC, true, Some(iv.kind.laneKind)))],
         totals := w.totals.(onCpuNs := SatAdd(w.totals.onCpuNs, duration),
                             targetNs := SatAdd(w.totals.targetNs, duration),
                             targetSpans := SatAdd(w.totals.targetSpans, 1)),
         slices := w.slices + [Slice(duration, 1)])
  }

  function BlockReason(q: Query, stack: seq<Addr>): Reason {
    q.classify(if stack == [] then None else Some(stack[0]))
  }

  function WalkOffCpu(q: Query, tid: U32, iv: RawInterval, duration: U64, w: Walk): Walk
    requires iv.kind.OffCpu?
  {
    if q.tid.Some? && q.tid.value != tid then w
    else if !q.keepInterval(tid, iv) then w
    else
      var reason := BlockReason(q, iv.kind.stack);
      w.(credits := w.credits + [Credit(iv.kind.stack, OffCpuDelta(reason, duration))],
         totals := w.totals.(offCpu := w.totals.offCpu.AddReason(reason, duration)))
  }

  function WalkInterval(q: Query, tid: U32, now: U64, samples: seq<PetSample>, iv: RawInterval, w: Walk): (w': Walk)
    requires w.cursor <= |samples|
    ensures w'.cursor <= |samples|
  {
    var duration := DurationOf(iv, now);
    if duration == 0 then w
    else match iv.kind
      case OnCpu =>
        if q.tid.Some? && q.tid.value != tid then w
        else
          var cursor := AdvanceCursor(samples, w.cursor, iv.startNs);
          Spread(w.(cursor := cursor), duration, Matching(q, tid, samples, cursor, EndOf(iv, now)))
      case SyntheticSpan(_, _, _) => WalkSpan(q, tid, iv, duration, w)
      case OffCpu(_, _, _) => WalkOffCpu(q, tid, iv, duration, w)
  }

  function WalkIntervals(q: Query, tid: U32, now: U64, stats: ThreadStats, n: nat, w: Walk): (w': Walk)
    requires n <= |stats.intervals| && w.cursor <= |stats.petSamples|
    ensures w'.cursor <= |stats.petSamples|
  {
    if n == 0 then w
    else WalkInterval(q, tid, now, stats.petSamples, stats.intervals[n - 1], WalkIntervals(q, tid, now, stats, n - 1, w))
  }

  /** One thread: its sample cursor starts at the front. */
  function WalkThread(q: Query, tid: U32, now: U64, stats: ThreadStats, w: Walk): Walk {
    WalkIntervals(q, tid, now, stats, |stats.intervals|, w.(cursor := 0))
  }

  const START := Walk(0, [], NO_TOTALS, [])

  /** All threads, in the order in which they happen to be visited. */
  function WalkThreads(q: Query, now: U64, threads: map<U32, ThreadStats>, order: seq<U32>): Walk
    requires forall t :: t in order ==> t in threads
  {
    if order == [] then START
    else
      var last := order[|order| - 1];
      WalkThread(q, last, now, threads[last], WalkThreads(q, now, threads, order[..|order| - 1]))
  }

  // -------------------------------------------------------------------- the walk, in place

  lemma BuildSnoc(cs: seq<Credit>, c: Credit)
    ensures Build(cs + [c]) == CreditPath(Build(cs), PathOf(c), c.delta)
    ensures BuildTable(cs + [c]) == CreditTable(BuildTable(cs), c.stack, c.delta)
  {
    assert (cs + [c])[..|cs + [c]| - 1] == cs;
  }

  /** The leaf's own entry and, once per distinct address, the totals along the stack. */
  method CreditAddresses(byAddress: Table, stack: seq<Addr>, delta: Tally) returns (byAddress': Table)
    ensures byAddress' == CreditTable(byAddress, stack, delta)
  {
    hide Plus;
    byAddress' := byAddress;
    if stack == [] {
      return;
    }
    byAddress' := CreditLeaf(byAddress', stack[0], delta);
    var seen: seq<Addr> := [];
    var i := 0;
    while i < |stack|
      invariant 0 <= i <= |stack|
      invariant forall a :: a in seen <==> a in stack[..i]
      invariant byAddress' == TotalsUpTo(CreditLeaf(byAddress, stack[0], delta), stack, i, delta)
    {
      if stack[i] !in seen {
        seen := seen + [stack[i]];
        byAddress' := CreditTotal(byAddress', stack[i], delta);
      }
      i := i + 1;
    }
  }

  /** `credit_on_cpu_to_tree`: the table, then the tree. */
  method CreditOnCpu(root: StackNode, ghost at: Nodes, byAddress: Table, stack: seq<Addr>, ns: U64, pmc: Pmc,
                     isTarget: bool, kind: Option<LaneKind>, ghost cs: seq<Credit>)
    returns (byAddress': Table, ghost at': Nodes)
    requires IsTree(at) && [] in at && at[[]] == root && View(at) == Build(cs) && byAddress == BuildTable(cs)
    modifies at.Values
    ensures IsTree(at') && [] in at' && at'[[]] == root && fresh(at'.Values - at.Values)
    ensures View(at') == Build(cs + [Credit(stack, OnCpuDelta(ns, pmc, isTarget, kind))])
    ensures byAddress' == BuildTable(cs + [Credit(stack, OnCpuDelta(ns, pmc, isTarget, kind))])
  {
    hide IsTree, Plus, OnCpuDelta;
    BuildSnoc(cs, Credit(stack, OnCpuDelta(ns, pmc, isTarget, kind)));
    byAddress' := CreditAddresses(byAddress, stack, OnCpuDelta(ns, pmc, isTarget, kind));
    at' := CreditOnCpuToTree(root, at, stack, ns, pmc, isTarget, kind);
  }

  /** `credit_off_cpu_to_tree`: the table, then the tree. */
  method CreditOffCpu(root: StackNode, ghost at: Nodes, byAddress: Table, stack: seq<Addr>, reason: Reason, ns: U64,
                      ghost cs: seq<Credit>)
    returns (byAddress': Table, ghost at': Nodes)
    requires IsTree(at) && [] in at && at[[]] == root && View(at) == Build(cs) && byAddress == BuildTable(cs)
    modifies at.Values
    ensures IsTree(at') && [] in at' && at'[[]] == root && fresh(at'.Values - at.Values)
    ensures View(at') == Build(cs + [Credit(stack, OffCpuDelta(reason, ns))])
    ensures byAddress' == BuildTable(cs + [Credit(stack, OffCpuDelta(reason, ns))])
  {
    hide IsTree, Plus, OffCpuDelta;
    BuildSnoc(cs, Credit(stack, OffCpuDelta(reason, ns)));
    byAddress' := CreditAddresses(byAddress, stack, OffCpuDelta(reason, ns));
    at' := CreditOffCpuToTree(root, at, stack, reason, ns);
  }

  /** The samples inside the interval, found by moving two indices forward. */
  method FindMatching(q: Query, tid: U32, samples: seq<PetSample>, sampleCursor: nat, start: U64, end: U64)
    returns (cursor: nat, matching: seq<PetSample>)
    requires sampleCursor <= |samples|
    ensures cursor == AdvanceCursor(samples, sampleCursor, start)
    ensures matching == Matching(q, tid, samples, cursor, end)
  {
    cursor := sampleCursor;
    while cursor < |samples| && samples[cursor].timestampNs < start
      invariant sampleCursor <= cursor <= |samples|
      invariant AdvanceCursor(samples, cursor, start) == AdvanceCursor(samples, sampleCursor, start)
    {
      cursor := cursor + 1;
    }
    matching := [];
    var idx := cursor;
    while idx < |samples| && samples[idx].timestampNs < end
      invariant cursor <= idx <= |samples|
      invariant matching + Matching(q, tid, samples, idx, end) == Matching(q, tid, samples, cursor, end)
    {
      if q.keepSample(tid, samples[idx]) {
        matching := matching + [samples[idx]];
      }
      idx := idx + 1;
    }
  }

  /** The result being built: the call tree, the per-address table and the headline totals. */
  class Aggregation {
    var flameRoot: StackNode
    var byAddress: Table
    var totals: Totals
    ghost var at: Nodes
    ghost var credits: seq<Credit>  // those issued so far

    /** The tree and the table are both built from the credits issued so far. */
    ghost predicate Valid()
      reads `flameRoot, `byAddress, `at, `credits, at.Values
    {
      && this as object !in at.Values
      && IsTree(at) && [] in at && at[[]] == flameRoot && View(at) == Build(credits)
      && byAddress == BuildTable(credits)
    }

    constructor ()
      ensures Valid() && fresh(at.Values) && credits == [] && totals == NO_TOTALS
    {
      flameRoot := new StackNode([]);
      byAddress, totals := map[], NO_TOTALS;
      at, credits := map[[] := flameRoot], [];
      new;
      assert View(at) == EMPTY_TRIE;
    }

    method CreditRunning(stack: seq<Addr>, ns: U64, pmc: Pmc, isTarget: bool, kind: Option<LaneKind>)
      requires Valid()
      modifies this, at.Values
      ensures Valid() && fresh(at.Values - old(at.Values)) && totals == old(totals)
      ensures credits == old(credits) + [Credit(stack, OnCpuDelta(ns, pmc, isTarget, kind))]
    {
      hide IsTree, View, Build, BuildTable, OnCpuDelta;
      byAddress, at := CreditOnCpu(flameRoot, at, byAddress, stack, ns, pmc, isTarget, kind, credits);
      credits := credits + [Credit(stack, OnCpuDelta(ns, pmc, isTarget, kind))];
    }

    method CreditBlocked(stack: seq<Addr>, reason: Reason, ns: U64)
      requires Valid()
      modifies this, at.Values
      ensures Valid() && fresh(at.Values - old(at.Values)) && totals == old(totals)
      ensures credits == old(credits) + [Credit(stack, OffCpuDelta(reason, ns))]
    {
      hide IsTree, View, Build, BuildTable, OffCpuDelta;
      byAddress, at := CreditOffCpu(flameRoot, at, byAddress, stack, reason, ns, credits);
      credits := credits + [Credit(stack, OffCpuDelta(reason, ns))];
    }

    /** This aggregation is what the walk has computed so far. */
    ghost predicate Shows(w: Walk)
      reads this, at.Values
    {
      Valid() && credits == w.credits && totals == w.totals
    }

    method AddOnCpuInterval(duration: U64, matching: seq<PetSample>, ghost w: Walk)
      requires Shows(w)
      modifies this, at.Values
      ensures Shows(Spread(w, duration, matching)) && fresh(at.Values - old(at.Values))
    {
      hide Valid;
      if matching == [] {
        return;
      }
      var creditNs := duration / |matching|;
      if creditNs == 0 {
        return;
      }
      totals := totals.(onCpuNs := SatAdd(totals.onCpuNs, duration));
      ghost var cs := SampleCredits(matching, creditNs);
      var i := 0;
      while i < |matching|
        invariant 0 <= i <= |matching|
        invariant Valid() && fresh(at.Values - old(at.Values))
        invariant totals == Spread(w, duration, matching).totals
        invariant credits == w.credits + cs[..i]
      {
        CreditRunning(matching[i].stack, creditNs, matching[i].pmc, false, None);
        i := i + 1;
      }
      assert cs[..|matching|] == cs;
    }

    method AddSpan(q: Query, tid: U32, iv: RawInterval, duration: U64, ghost w: Walk)
      requires iv.kind.SyntheticSpan? && Shows(w)
      modifies this, at.Values
      ensures Shows(WalkSpan(q, tid, iv, duration, w)) && fresh(at.Values - old(at.Values))
    {
      hide Valid;
      if q.tid.Some? && q.tid.value != tid && q.tid != iv.kind.originTid {
        return;
      }
      if !q.keepInterval(tid, iv) {
        return;
      }
      totals := totals.(onCpuNs := SatAdd(totals.onCpuNs, duration),
                        targetNs := SatAdd(totals.targetNs, duration),
                        targetSpans := SatAdd(totals.targetSpans, 1));
      CreditRunning(TargetLaneStack(iv.kind.stack), duration, NO_PMC, true, Some(iv.kind.laneKind));
    }

    method AddOffCpuInterval(q: Query, tid: U32, iv: RawInterval, duration: U64, ghost w: Walk)
      requires iv.kind.OffCpu? && Shows(w)
      modifies this, at.Values
      ensures Shows(WalkOffCpu(q, tid, iv, duration, w)) && fresh(at.Values - old(at.Values))
    {
      hide Valid;
      if q.tid.Some? && q.tid.value != tid {
        return;
      }
      if !q.keepInterval(tid, iv) {
        return;
      }
      var reason := BlockReason(q, iv.kind.stack);
      totals := totals.(offCpu := totals.offCpu.AddReason(reason, duration));
      CreditBlocked(iv.kind.stack, reason, duration);
    }

    /** One interval, by kind; returns the new position of the sample cursor. */
    method AddInterval(q: Query, tid: U32, now: U64, samples: seq<PetSample>, iv: RawInterval, sampleCursor: nat,
                       ghost w: Walk)
      returns (cursor: nat)
      requires Shows(w) && sampleCursor == w.cursor <= |samples|
      modifies this, at.Values
      ensures Shows(WalkInterval(q, tid, now, samples, iv, w)) && fresh(at.Values - old(at.Values))
      ensures cursor == WalkInterval(q, tid, now, samples, iv, w).cursor
    {
      hide Valid;
      cursor := sampleCursor;
      var end := if iv.endNs == 0 then (if now >= iv.startNs then now else iv.startNs) else iv.endNs;
      var duration := SatSub(end, iv.startNs);
      if duration == 0 {
        return;
      }
      match iv.kind {
        case OnCpu =>
          if q.tid.Some? && q.tid.value != tid {
            return;
          }
          var matching;
          cursor, matching := FindMatching(q, tid, samples, sampleCursor, iv.startNs, end);
          AddOnCpuInterval(duration, matching, w.(cursor := cursor));
        case SyntheticSpan(_, _, _) =>
          AddSpan(q, tid, iv, duration, w);
        case OffCpu(_, _, _) =>
          AddOffCpuInterval(q, tid, iv, duration, w);
      }
    }

    /** The loop over one thread's intervals; the sample cursor only moves forward. */
    method AddThread(q: Query, tid: U32, now: U64, stats: ThreadStats, ghost w: Walk)
      requires Shows(w)
      modifies this, at.Values
      ensures Shows(WalkThread(q, tid, now, stats, w)) && fresh(at.Values - old(at.Values))
    {
      hide Valid, WalkInterval;
      ghost var w0 := w.(cursor := 0);
      var samples, sampleCursor, i := stats.petSamples, 0, 0;
      while i < |stats.intervals|
        invariant 0 <= i <= |stats.intervals|
        invariant Shows(WalkIntervals(q, tid, now, stats, i, w0)) && fresh(at.Values - old(at.Values))
        invariant sampleCursor == WalkIntervals(q, tid, now, stats, i, w0).cursor
      {
        ghost var w1 := WalkIntervals(q, tid, now, stats, i, w0);
        sampleCursor := AddInterval(q, tid, now, samples, stats.intervals[i], sampleCursor, w1);
        i := i + 1;
      }
    }
  }

  /** The per-thread event log. */
  class Aggregator {
    var threads: map<U32, ThreadStats>
    var sessionStartNs: Option<U64>
    var lastEventNs: Option<U64>

    constructor ()
      ensures threads == map[] && sessionStartNs == None && lastEventNs == None
    {
      threads, sessionStartNs, lastEventNs := map[], None, None;
    }

    method NoteTimestamp(ts: U64)
      modifies `sessionStartNs, `lastEventNs
      ensures sessionStartNs == FirstOf(old(sessionStartNs), ts)
      ensures lastEventNs == LatestOf(old(lastEventNs), ts)
    {
      if ts == 0 {
        return;
      }
      if sessionStartNs.None? {
        sessionStartNs := Some(ts);
      }
      lastEventNs := Some(if lastEventNs.Some? && lastEventNs.value >= ts then lastEventNs.value else ts);
    }

    method RecordPetSample(tid: U32, sample: PetSample)
      modifies this
      ensures threads == old(threads)[tid := Logged(old(threads), tid).(
                petSamples := Pushed(Logged(old(threads), tid).petSamples, sample))]
      ensures sessionStartNs == FirstOf(old(sessionStartNs), sample.timestampNs)
      ensures lastEventNs == LatestOf(old(lastEventNs), sample.timestampNs)
    {
      NoteTimestamp(sample.timestampNs);
      var stats := Logged(threads, tid);
      if |stats.petSamples| >= MAX_EVENTS_PER_THREAD {
        stats := stats.(petSamples := stats.petSamples[1..]);
      }
      threads := threads[tid := stats.(petSamples := stats.petSamples + [sample])];
    }

    method RecordInterval(tid: U32, iv: RawInterval)
      modifies this
      ensures threads == old(threads)[tid := Logged(old(threads), tid).(
                intervals := Pushed(Logged(old(threads), tid).intervals, iv))]
      ensures sessionStartNs == FirstOf(FirstOf(old(sessionStartNs), iv.startNs), iv.endNs)
      ensures lastEventNs == LatestOf(LatestOf(old(lastEventNs), iv.startNs), iv.endNs)
    {
      NoteTimestamp(iv.startNs);
      if iv.endNs != 0 {
        NoteTimestamp(iv.endNs);
      }
      var stats := Logged(threads, tid);
      if |stats.intervals| >= MAX_EVENTS_PER_THREAD {
        stats := stats.(intervals := stats.intervals[1..]);
      }
      threads := threads[tid := stats.(intervals := stats.intervals + [iv])];
    }

    /** The whole pass. The threads are visited in the hash map's order, whatever it is. */
    method Aggregate(q: Query) returns (agg: Aggregation, order: seq<U32>)
      ensures fresh(agg) && agg.Valid()
      ensures (forall t :: t in order <==> t in threads) && forall i, j :: 0 <= i < j < |order| ==> order[i] != order[j]
      ensures var w := WalkThreads(q, Now(lastEventNs), threads, order);
              agg.credits == w.credits && agg.totals == w.totals
    {
      hide WalkThread, Aggregation.Valid;
      var now := Now(lastEventNs);
      agg := new Aggregation();
      order := [];
      var todo := threads.Keys;
      while todo != {}
        invariant todo <= threads.Keys && forall t :: t in order <==> t in threads && t !in todo
        invariant forall i, j :: 0 <= i < j < |order| ==> order[i] != order[j]
        invariant fresh(agg) && fresh(agg.at.Values) && agg.Shows(WalkThreads(q, now, threads, order))
        decreases |todo|
      {
        var tid :| tid in todo;
        todo := todo - {tid};
        agg.AddThread(q, tid, now, threads[tid], WalkThreads(q, now, threads, order));
        assert (order + [tid])[..|order|] == order;
        order := order + [tid];
      }
    }
  }

  /** Zero is no timestamp. */
  function FirstOf(first: Option<U64>, ts: U64): Option<U64> {
    if ts != 0 && first.None? then Some(ts) else first
  }

  function LatestOf(latest: Option<U64>, ts: U64): Option<U64> {
    if ts != 0 && (latest.None? || latest.value < ts) then Some(ts) else latest
  }

  function Now(lastEventNs: Option<U64>): U64 {
    match lastEventNs
    case Some(ts) => ts
    case None => 0
  }

  function Logged(threads: map<U32, ThreadStats>, tid: U32): ThreadStats {
    if tid in threads then threads[tid] else ThreadStats([], [])
  }

  /** A bounded log: the oldest event makes room. */
  function Pushed<T>(log: seq<T>, event: T): seq<T> {
    (if |log| >= MAX_EVENTS_PER_THREAD then log[1..] else log) + [event]
  }
}
