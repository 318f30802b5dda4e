/**
 From perf records to credited time. The session turns each pair of neighbouring samples
 into a capped on-CPU interval, the aggregator finds exactly one sample in it: together,
 every sample is credited the time to the next one, capped, and the last sample nothing.
 */
module EndToEnd {
  import opened Numbers
  import opened Options
  import opened CallTrie
  import Agg = Aggregator
  import opened AggregatorLaws
  import opened Session
  import opened SessionSteps
  import opened SessionTimeline
  import ThreadOrder

  // --------------------------------------------------------------------- the event log

  function LogEvent(log: Agg.ThreadStats, e: Event, tid: U32): Agg.ThreadStats {
    match e
    case SampleEvent(t, time, user) =>
      if t != tid then log
      else log.(petSamples := Agg.Pushed(log.petSamples, Agg.PetSample(time, user, [], NO_PMC)))
    case OnCpuEvent(t, start, end) =>
      if t != tid then log
      else log.(intervals := Agg.Pushed(log.intervals, Agg.RawInterval(start, end, Agg.OnCpu)))
    case OffCpuEvent(t, start, end, stack, waker) =>
      if t != tid then log
      else
        var kind := match waker
                    case Some(w) => Agg.OffCpu(stack, Some(w.tid), Some(w.user))
                    case None => Agg.OffCpu(stack, None, None);
        log.(intervals := Agg.Pushed(log.intervals, Agg.RawInterval(start, end, kind)))
    case WakeupEvent(_, _, _) => log
  }

  /** What the aggregator has stored for the thread after the events, oldest ones evicted. */
  function LogOf(es: seq<Event>, tid: U32): Agg.ThreadStats {
    if es == [] then Agg.ThreadStats([], []) else LogEvent(LogOf(es[..|es| - 1], tid), es[|es| - 1], tid)
  }

  function SamplesIn(es: seq<Event>, tid: U32): seq<Agg.PetSample> {
    if es == [] then []
    else
      var e := es[|es| - 1];
      SamplesIn(es[..|es| - 1], tid)
      + if e.SampleEvent? && e.tid == tid then [Agg.PetSample(e.time, e.user, [], NO_PMC)] else []
  }

  function CountIntervals(es: seq<Event>, tid: U32): nat {
    if es == [] then 0
    else
      var e := es[|es| - 1];
      CountIntervals(es[..|es| - 1], tid) + if (e.OnCpuEvent? || e.OffCpuEvent?) && e.tid == tid then 1 else 0
  }

  /** The on-CPU intervals of a log, as spans. */
  function SpansOf(ivs: seq<Agg.RawInterval>): seq<Span> {
    if ivs == [] then []
    else
      var iv := ivs[|ivs| - 1];
      SpansOf(ivs[..|ivs| - 1]) + if iv.kind.OnCpu? then [Span(iv.startNs, iv.endNs)] else []
  }

  lemma SpansSnoc(ivs: seq<Agg.RawInterval>, iv: Agg.RawInterval)
    ensures SpansOf(ivs + [iv]) == SpansOf(ivs) + if iv.kind.OnCpu? then [Span(iv.startNs, iv.endNs)] else []
  {
    assert (ivs + [iv])[..|ivs + [iv]| - 1] == ivs;
  }

  /** With nothing evicted the log is the thread's samples and its intervals, in order. */
  lemma {:induction false} LogIsComplete(es: seq<Event>, tid: U32)
    requires |SamplesIn(es, tid)| <= Agg.MAX_EVENTS_PER_THREAD && CountIntervals(es, tid) <= Agg.MAX_EVENTS_PER_THREAD
    ensures LogOf(es, tid).petSamples == SamplesIn(es, tid)
    ensures |LogOf(es, tid).intervals| == CountIntervals(es, tid)
    ensures SpansOf(LogOf(es, tid).intervals) == OnCpuOf(es, tid)
    ensures forall iv :: iv in LogOf(es, tid).intervals ==> !iv.kind.SyntheticSpan?
  {
    if es != [] {
      var front, e := es[..|es| - 1], es[|es| - 1];
      LogIsComplete(front, tid);
      var log := LogOf(front, tid);
      assert LogOf(es, tid) == LogEvent(log, e, tid);
      hide Agg.Pushed, SpansOf, LogOf, SamplesIn, CountIntervals, LogEvent;
      CountsOneMore(es, tid);
      if e.SampleEvent? {
        LogSample(log, e, tid);
      } else {
        LogInterval(log, e, tid);
      }
    }
  }

  lemma CountsOneMore(es: seq<Event>, tid: U32)
    requires es != []
    ensures var front, e := es[..|es| - 1], es[|es| - 1];
            && CountIntervals(es, tid) == CountIntervals(front, tid) + (if (e.OnCpuEvent? || e.OffCpuEvent?) && e.tid == tid then 1 else 0)
            && SamplesIn(es, tid)
               == SamplesIn(front, tid) + (if e.SampleEvent? && e.tid == tid then [Agg.PetSample(e.time, e.user, [], NO_PMC)] else [])
            && OnCpuOf(es, tid)
               == OnCpuOf(front, tid) + (if e.OnCpuEvent? && e.tid == tid then [Span(e.start, e.end)] else [])
  {
  }

  lemma LogSample(log: Agg.ThreadStats, e: Event, tid: U32)
    requires e.SampleEvent? && (e.tid == tid ==> |log.petSamples| < Agg.MAX_EVENTS_PER_THREAD)
    ensures LogEvent(log, e, tid)
         == (if e.tid == tid then log.(petSamples := log.petSamples + [Agg.PetSample(e.time, e.user, [], NO_PMC)]) else log)
  {
  }

  /** Any other event: at most one interval more, and a span more exactly for an on-CPU one. */
  lemma LogInterval(log: Agg.ThreadStats, e: Event, tid: U32)
    requires !e.SampleEvent?
    requires (e.OnCpuEvent? || e.OffCpuEvent?) && e.tid == tid ==> |log.intervals| < Agg.MAX_EVENTS_PER_THREAD
    requires forall iv :: iv in log.intervals ==> !iv.kind.SyntheticSpan?
    ensures var log' := LogEvent(log, e, tid);
            && log'.petSamples == log.petSamples
            && |log'.intervals| == |log.intervals| + (if (e.OnCpuEvent? || e.OffCpuEvent?) && e.tid == tid then 1 else 0)
            && SpansOf(log'.intervals)
               == SpansOf(log.intervals) + (if e.OnCpuEvent? && e.tid == tid then [Span(e.start, e.end)] else [])
            && forall iv :: iv in log'.intervals ==> !iv.kind.SyntheticSpan?
  {
    var log' := LogEvent(log, e, tid);
    if log' != log {
      SpansSnoc(log.intervals, log'.intervals[|log.intervals|]);
    }
  }

  // ------------------------------------------------------------- the session's half

  ghost predicate Increasing(samples: seq<Agg.PetSample>) {
    && (forall i :: 0 <= i < |samples| ==> samples[i].timestampNs > 0)
    && (forall i, j :: 0 <= i < j < |samples| ==> samples[i].timestampNs < samples[j].timestampNs)
  }

  /** Sample `i`'s time: to the next sample, at most the cap. */
  function ShareOf(samples: seq<Agg.PetSample>, cap: U64, i: nat): U64
    requires i + 1 < |samples| && samples[i].timestampNs <= samples[i + 1].timestampNs
  {
    Min(samples[i + 1].timestampNs - samples[i].timestampNs, cap)
  }

  /** The spans of neighbouring samples. */
  function Expected(samples: seq<Agg.PetSample>, cap: U64): seq<Span> {
    if |samples| < 2 then []
    else
      Expected(samples[..|samples| - 1], cap)
      + SliceOf(Some(samples[|samples| - 2].timestampNs), samples[|samples| - 1].timestampNs, cap)
  }

  lemma SnocSample(es: seq<Event>, e: Event, tid: U32)
    ensures SamplesIn(es + [e], tid)
         == SamplesIn(es, tid)
            + if e.SampleEvent? && e.tid == tid then [Agg.PetSample(e.time, e.user, [], NO_PMC)] else []
  {
    assert (es + [e])[..|es + [e]| - 1] == es;
  }

  function NewestOf(samples: seq<Agg.PetSample>): Option<U64> {
    if samples == [] then None else Some(samples[|samples| - 1].timestampNs)
  }

  /** Every record that is not a sample of the thread leaves its sample events alone. */
  lemma OtherRecordKeepsSamples(cfg: Config, s: State, r: Rec, tid: U32)
    requires !(r.Sample? && Observable(cfg, r.pid, r.tid) && r.tid == tid)
    ensures SamplesIn(Step(cfg, s, r).emitted, tid) == SamplesIn(s.emitted, tid)
  {
    hide Step, SwitchInStep, SwitchOutStep, SampleStep, WakingStep, SampleEvents, SamplesIn, Observable, ClosedBy;
    StepKinds(cfg, s, r);
    if r.Fork? || r.SwitchSample? {
      SeenFields(cfg, s, r);
    } else if r.Waking? {
      WakingFields(s, r.wakerTid, r.time, r.user, r.wakee);
      SnocSample(s.emitted, WakeupEvent(r.wakee, r.wakerTid, r.time), tid);
    } else if r.Lost? || !Observable(cfg, r.pid, r.tid) {
    } else if r.Sample? {
      SampleFields(cfg, s, r.tid, r.time, r.user);
      SamplesOfSampleEvents(cfg, s, r.tid, r.time, r.user, tid);
    } else if r.SwitchIn? {
      SwitchInKeepsSamples(s, r.tid, r.time, tid);
    } else {
      SwitchOutFields(s, r.tid, r.time, r.preempted, r.waitSite);
    }
  }

  lemma SwitchInKeepsSamples(s: State, t: U32, time: U64, tid: U32)
    ensures SamplesIn(SwitchInStep(s, t, time).emitted, tid) == SamplesIn(s.emitted, tid)
  {
    hide SwitchInStep, FreshWaker, SamplesIn;
    SwitchInFields(s, t, time);
    if Closes(s, t, time) {
      SnocSample(s.emitted, ClosedBy(s, t, time), tid);
    }
  }

  lemma SamplesOfSampleEvents(cfg: Config, s: State, t: U32, time: U64, user: seq<Addr>, tid: U32)
    ensures SamplesIn(s.emitted + SampleEvents(cfg, s, t, time, user), tid)
         == SamplesIn(s.emitted, tid) + if t == tid then [Agg.PetSample(time, user, [], NO_PMC)] else []
  {
    hide SamplesIn, SliceOf;
    var es := SampleEvents(cfg, s, t, time, user);
    SnocSample(s.emitted, es[0], tid);
    if |es| == 2 {
      SnocSample(s.emitted + [es[0]], es[1], tid);
      assert s.emitted + es == s.emitted + [es[0]] + [es[1]];
    } else {
      assert es == [es[0]];
    }
  }

  lemma ExpectedSnoc(samples: seq<Agg.PetSample>, p: Agg.PetSample, cap: U64)
    ensures Expected(samples + [p], cap) == Expected(samples, cap) + SliceOf(NewestOf(samples), p.timestampNs, cap)
    ensures NewestOf(samples + [p]) == Some(p.timestampNs)
  {
    var all := samples + [p];
    assert all[..|all| - 1] == samples;
    assert samples != [] ==> all[|all| - 2] == samples[|samples| - 1];
  }

  /** The thread's samples as the records have them. */
  function SampleRecords(cfg: Config, recs: seq<Rec>, tid: U32): seq<Agg.PetSample> {
    if recs == [] then []
    else
      var r := recs[|recs| - 1];
      SampleRecords(cfg, recs[..|recs| - 1], tid)
      + if r.Sample? && Observable(cfg, r.pid, r.tid) && r.tid == tid then [Agg.PetSample(r.time, r.user, [], NO_PMC)] else []
  }

  /** What the session emits as a thread's samples are its sample records, in order. */
  lemma {:induction false} SamplesOfRun(cfg: Config, recs: seq<Rec>, tid: U32)
    ensures SamplesIn(Run(cfg, recs).emitted, tid) == SampleRecords(cfg, recs, tid)
  {
    if recs != [] {
      hide Step, SamplesIn;
      var front, r := recs[..|recs| - 1], recs[|recs| - 1];
      SamplesOfRun(cfg, front, tid);
      if r.Sample? && Observable(cfg, r.pid, r.tid) && r.tid == tid {
        SampleIsEmitted(cfg, Run(cfg, front), r, tid);
      } else {
        OtherRecordKeepsSamples(cfg, Run(cfg, front), r, tid);
      }
    } else {
      assert SamplesIn([], tid) == [];
    }
  }

  lemma SessionSpansSample(cfg: Config, s: State, r: Rec, tid: U32)
    requires r.Sample? && Observable(cfg, r.pid, r.tid) && r.tid == tid
    requires Increasing(SamplesIn(Step(cfg, s, r).emitted, tid))
    requires Increasing(SamplesIn(s.emitted, tid)) ==>
               && OnCpuOf(s.emitted, tid) == Expected(SamplesIn(s.emitted, tid), cfg.maxOnCpuGapNs)
               && LastOf(s, tid) == NewestOf(SamplesIn(s.emitted, tid))
    ensures var s' := Step(cfg, s, r);
            && OnCpuOf(s'.emitted, tid) == Expected(SamplesIn(s'.emitted, tid), cfg.maxOnCpuGapNs)
            && LastOf(s', tid) == NewestOf(SamplesIn(s'.emitted, tid))
  {
    hide Step, SampleStep, Increasing, Expected, OnCpuOf, SamplesIn, SliceOf;
    SampleIsEmitted(cfg, s, r, tid);
    var samples, p := SamplesIn(s.emitted, tid), Agg.PetSample(r.time, r.user, [], NO_PMC);
    IncreasingFront(samples, p);
    StepIsSample(cfg, s, r, tid);
    SampleOnCpu(cfg, s, tid, r.time, r.user);
    ExpectedSnoc(samples, p, cfg.maxOnCpuGapNs);
    assert LaterOf(NewestOf(samples), r.time) == r.time;
  }

  lemma {:induction false} EmittedSpans(cfg: Config, recs: seq<Rec>, tid: U32)
    requires Increasing(SamplesIn(Run(cfg, recs).emitted, tid))
    ensures OnCpuOf(Run(cfg, recs).emitted, tid) == Expected(SamplesIn(Run(cfg, recs).emitted, tid), cfg.maxOnCpuGapNs)
    ensures LastOf(Run(cfg, recs), tid) == NewestOf(SamplesIn(Run(cfg, recs).emitted, tid))
  {
    if recs != [] {
      hide Step, Increasing, Expected, LastOf, NewestOf;
      var front, r := recs[..|recs| - 1], recs[|recs| - 1];
      var s := Run(cfg, front);
      if r.Sample? && Observable(cfg, r.pid, r.tid) && r.tid == tid {
        if Increasing(SamplesIn(s.emitted, tid)) {
          EmittedSpans(cfg, front, tid);
        }
        SessionSpansSample(cfg, s, r, tid);
      } else {
        OtherRecordKeepsSamples(cfg, s, r, tid);
        EmittedSpans(cfg, front, tid);
        OtherRecordKeepsOnCpu(cfg, s, r, tid);
      }
    }
  }

  /** For sample records at increasing times the session's on-CPU intervals are the neighbouring spans. */
  lemma SessionSpans(cfg: Config, recs: seq<Rec>, tid: U32)
    requires Increasing(SampleRecords(cfg, recs, tid))
    ensures OnCpuOf(Run(cfg, recs).emitted, tid) == Expected(SampleRecords(cfg, recs, tid), cfg.maxOnCpuGapNs)
  {
    SamplesOfRun(cfg, recs, tid);
    EmittedSpans(cfg, recs, tid);
  }

  lemma SampleIsEmitted(cfg: Config, s: State, r: Rec, tid: U32)
    requires r.Sample? && Observable(cfg, r.pid, r.tid) && r.tid == tid
    ensures SamplesIn(Step(cfg, s, r).emitted, tid) == SamplesIn(s.emitted, tid) + [Agg.PetSample(r.time, r.user, [], NO_PMC)]
  {
    hide SampleStep;
    SampleFields(cfg, s, tid, r.time, r.user);
    SamplesOfSampleEvents(cfg, s, tid, r.time, r.user, tid);
  }

  lemma IncreasingFront(samples: seq<Agg.PetSample>, p: Agg.PetSample)
    requires Increasing(samples + [p])
    ensures Increasing(samples) && p.timestampNs > 0
    ensures samples != [] ==> samples[|samples| - 1].timestampNs < p.timestampNs
  {
    var all := samples + [p];
    assert all[|samples|] == p;
    assert forall i :: 0 <= i < |samples| ==> samples[i] == all[i];
  }

  // ----------------------------------------------------------- the aggregator's half

  lemma {:induction false} ExpectedAt(samples: seq<Agg.PetSample>, cap: U64, i: nat)
    requires Increasing(samples) && cap > 0 && i + 1 < |samples|
    ensures |Expected(samples, cap)| == |samples| - 1
    ensures var t := samples[i].timestampNs; Expected(samples, cap)[i] == Span(t, t + ShareOf(samples, cap, i))
    decreases |samples|
  {
    var n := |samples|;
    var front := samples[..n - 1];
    if n > 2 {
      ExpectedAt(front, cap, if i < n - 2 then i else 0);
    }
  }

  lemma {:induction false} InsideOne(q: Agg.Query, tid: U32, samples: seq<Agg.PetSample>, start: U64, end: U64, k: nat, idx: nat)
    requires Increasing(samples) && idx <= |samples| && k < |samples|
    requires start == samples[k].timestampNs < end && (k + 1 < |samples| ==> end <= samples[k + 1].timestampNs)
    requires q.keepSample(tid, samples[k])
    ensures Inside(q, tid, samples, start, end, idx) == if idx <= k then [samples[k]] else []
    decreases |samples| - idx
  {
    if idx < |samples| {
      InsideOne(q, tid, samples, start, end, k, idx + 1);
      assert idx > k ==> end <= samples[k + 1].timestampNs <= samples[idx].timestampNs;
    }
  }

  /** The credits that stand for sampled on-CPU time. */
  function Sampled(cs: seq<Credit>): seq<Credit> {
    if cs == [] then []
    else Sampled(cs[..|cs| - 1]) + if cs[|cs| - 1].delta.petSamples > 0 then [cs[|cs| - 1]] else []
  }

  lemma SampledSnoc(cs: seq<Credit>, c: Credit)
    ensures Sampled(cs + [c]) == Sampled(cs) + if c.delta.petSamples > 0 then [c] else []
  {
    assert (cs + [c])[..|cs + [c]| - 1] == cs;
  }

  /** The first `k` samples, each credited its share. */
  function Shares(samples: seq<Agg.PetSample>, cap: U64, k: nat): seq<Credit>
    requires Increasing(samples) && k < |samples|
  {
    if k == 0 then []
    else Shares(samples, cap, k - 1) + [Agg.SampleCredit(samples[k - 1], ShareOf(samples, cap, k - 1))]
  }

  /** The thread is asked for, and the filter keeps all of its samples. */
  ghost predicate KeepsAll(q: Agg.Query, tid: U32) {
    (q.tid.None? || q.tid.value == tid) && forall s :: q.keepSample(tid, s)
  }

  /** One step of the walk: an on-CPU span is credited whole to the one sample inside it. */
  lemma CreditOne(q: Agg.Query, tid: U32, now: U64, samples: seq<Agg.PetSample>, cap: U64, iv: Agg.RawInterval,
                  w: Agg.Walk, k: nat)
    requires KeepsAll(q, tid) && Increasing(samples) && cap > 0 && iv.kind.OnCpu? && k + 1 < |samples|
    requires iv.startNs == samples[k].timestampNs && iv.endNs == samples[k].timestampNs + ShareOf(samples, cap, k)
    requires Sampled(w.credits) == Shares(samples, cap, k)
    ensures Sampled(NaiveInterval(q, tid, now, samples, iv, w).credits) == Shares(samples, cap, k + 1)
  {
    var share := ShareOf(samples, cap, k);
    assert share > 0;
    SpreadToOne(q, tid, now, samples, cap, iv, w, k);
    hide NaiveInterval, Agg.Spread, Increasing, KeepsAll, ShareOf, Agg.SampleCredit;
    SpreadOne(w, share, samples[k]);
    assert Agg.SampleCredit(samples[k], share).delta.petSamples == 1 by { OneSample(samples[k], share); }
    SampledSnoc(w.credits, Agg.SampleCredit(samples[k], share));
  }

  lemma OneSample(s: Agg.PetSample, ns: U64)
    ensures Agg.SampleCredit(s, ns).delta.petSamples == 1
  {
  }

  /** All of the span's time goes to the one sample inside it. */
  lemma SpreadToOne(q: Agg.Query, tid: U32, now: U64, samples: seq<Agg.PetSample>, cap: U64, iv: Agg.RawInterval,
                    w: Agg.Walk, k: nat)
    requires KeepsAll(q, tid) && Increasing(samples) && cap > 0 && iv.kind.OnCpu? && k + 1 < |samples|
    requires iv.startNs == samples[k].timestampNs && iv.endNs == samples[k].timestampNs + ShareOf(samples, cap, k)
    ensures NaiveInterval(q, tid, now, samples, iv, w) == Agg.Spread(w, ShareOf(samples, cap, k), [samples[k]])
  {
    hide Agg.Spread, Inside;
    assert q.keepSample(tid, samples[k]) && (q.tid.None? || q.tid.value == tid);
    var t, share := samples[k].timestampNs, ShareOf(samples, cap, k);
    assert t < t + share <= samples[k + 1].timestampNs && t > 0;
    hide ShareOf, KeepsAll;
    InsideOne(q, tid, samples, iv.startNs, iv.endNs, k, 0);
    hide Increasing;
  }

  lemma SpreadOne(w: Agg.Walk, share: U64, s: Agg.PetSample)
    requires share > 0
    ensures Agg.Spread(w, share, [s]).credits == w.credits + [Agg.SampleCredit(s, share)]
  {
    assert Agg.SampleCredits([s], share) == [Agg.SampleCredit(s, share)];
  }

  lemma CreditOffCpu(q: Agg.Query, tid: U32, now: U64, samples: seq<Agg.PetSample>, iv: Agg.RawInterval, w: Agg.Walk)
    requires iv.kind.OffCpu?
    ensures Sampled(NaiveInterval(q, tid, now, samples, iv, w).credits) == Sampled(w.credits)
  {
    var w' := NaiveInterval(q, tid, now, samples, iv, w);
    if w' != w {
      SampledSnoc(w.credits, w'.credits[|w.credits|]);
    }
  }

  /** The walk over the first `n` intervals has credited as many samples as spans were met. */
  lemma {:induction false} CreditAll(q: Agg.Query, tid: U32, now: U64, stats: Agg.ThreadStats, cap: U64, n: nat)
    requires KeepsAll(q, tid) && Increasing(stats.petSamples) && cap > 0 && n <= |stats.intervals|
    requires forall iv :: iv in stats.intervals ==> !iv.kind.SyntheticSpan?
    requires stats.petSamples != [] && SpansOf(stats.intervals) == Expected(stats.petSamples, cap)
    ensures |SpansOf(stats.intervals[..n])| < |stats.petSamples|
    ensures Sampled(NaiveIntervals(q, tid, now, stats, n, Agg.START).credits)
         == Shares(stats.petSamples, cap, |SpansOf(stats.intervals[..n])|)
  {
    hide NaiveInterval, Increasing, KeepsAll, Expected, Sampled, SpansOf, Shares, ShareOf;
    if n == 0 {
      EmptySampled();
      assert stats.intervals[..0] == [];
      NothingShared(stats.petSamples, cap);
    } else {
      CreditAll(q, tid, now, stats, cap, n - 1);
      var samples, iv := stats.petSamples, stats.intervals[n - 1];
      var w, k := NaiveIntervals(q, tid, now, stats, n - 1, Agg.START), |SpansOf(stats.intervals[..n - 1])|;
      assert stats.intervals[..n] == stats.intervals[..n - 1] + [iv];
      SpansSnoc(stats.intervals[..n - 1], iv);
      if iv.kind.OnCpu? {
        SpanIsExpected(stats, cap, n);
        CreditOne(q, tid, now, samples, cap, iv, w, k);
      } else {
        CreditOffCpu(q, tid, now, samples, iv, w);
      }
    }
  }

  lemma EmptySampled()
    ensures Sampled([]) == []
  {
  }

  lemma NothingShared(samples: seq<Agg.PetSample>, cap: U64)
    requires Increasing(samples) && samples != []
    ensures Shares(samples, cap, 0) == [] && SpansOf([]) == []
  {
  }

  lemma {:induction false} SpansPrefix(ivs: seq<Agg.RawInterval>, n: nat)
    requires n <= |ivs|
    ensures SpansOf(ivs[..n]) <= SpansOf(ivs)
    decreases |ivs|
  {
    if n < |ivs| {
      var front := ivs[..|ivs| - 1];
      SpansPrefix(front, n);
      assert front[..n] == ivs[..n];
    } else {
      assert ivs[..n] == ivs;
    }
  }

  /** The next on-CPU interval of the log is the span of the next pair of samples. */
  lemma SpanIsExpected(stats: Agg.ThreadStats, cap: U64, n: nat)
    requires Increasing(stats.petSamples) && cap > 0 && 0 < n <= |stats.intervals| && stats.petSamples != []
    requires stats.intervals[n - 1].kind.OnCpu? && SpansOf(stats.intervals) == Expected(stats.petSamples, cap)
    ensures var k, samples, iv := |SpansOf(stats.intervals[..n - 1])|, stats.petSamples, stats.intervals[n - 1];
            && k + 1 < |samples| && iv.startNs == samples[k].timestampNs
            && iv.endNs == samples[k].timestampNs + ShareOf(samples, cap, k)
  {
    var k, samples, iv := |SpansOf(stats.intervals[..n - 1])|, stats.petSamples, stats.intervals[n - 1];
    assert stats.intervals[..n] == stats.intervals[..n - 1] + [iv];
    SpansSnoc(stats.intervals[..n - 1], iv);
    SpansPrefix(stats.intervals, n);
    assert SpansOf(stats.intervals[..n])[k] == Span(iv.startNs, iv.endNs);
    if |samples| >= 2 {
      ExpectedAt(samples, cap, 0);
      ExpectedAt(samples, cap, k);
    }
  }

  lemma SpansAscend(stats: Agg.ThreadStats, cap: U64, now: U64)
    requires Increasing(stats.petSamples) && cap > 0 && stats.petSamples != []
    requires SpansOf(stats.intervals) == Expected(stats.petSamples, cap)
    ensures StartSorted(stats.intervals, now)
  {
    var ivs := stats.intervals;
    forall i, j | 0 <= i < j < |ivs| && Live(ivs[i], now) && Live(ivs[j], now) ensures ivs[i].startNs <= ivs[j].startNs {
      hide Expected, ShareOf, SpansOf;
      SpanIsExpected(stats, cap, i + 1);
      SpanIsExpected(stats, cap, j + 1);
      MoreSpans(ivs, i, j);
    }
  }

  lemma MoreSpans(ivs: seq<Agg.RawInterval>, i: nat, j: nat)
    requires i < j <= |ivs| && ivs[i].kind.OnCpu?
    ensures |SpansOf(ivs[..i])| < |SpansOf(ivs[..j])|
  {
    assert ivs[..i + 1] == ivs[..i] + [ivs[i]];
    SpansSnoc(ivs[..i], ivs[i]);
    SpansPrefix(ivs[..j], i + 1);
    assert ivs[..j][..i + 1] == ivs[..i + 1];
  }

  lemma {:induction false} NoSpans(ivs: seq<Agg.RawInterval>)
    requires SpansOf(ivs) == []
    ensures forall iv :: iv in ivs ==> !iv.kind.OnCpu?
  {
    if ivs != [] {
      NoSpans(ivs[..|ivs| - 1]);
    }
  }

  lemma {:induction false} NothingSampled(q: Agg.Query, tid: U32, now: U64, stats: Agg.ThreadStats, n: nat)
    requires n <= |stats.intervals| && forall iv :: iv in stats.intervals ==> iv.kind.OffCpu?
    ensures Sampled(NaiveIntervals(q, tid, now, stats, n, Agg.START).credits) == []
  {
    if n > 0 {
      NothingSampled(q, tid, now, stats, n - 1);
      CreditOffCpu(q, tid, now, stats.petSamples, stats.intervals[n - 1], NaiveIntervals(q, tid, now, stats, n - 1, Agg.START));
    }
  }

  lemma {:induction false} NoCapNoSpans(samples: seq<Agg.PetSample>)
    ensures Expected(samples, 0) == []
  {
    if |samples| >= 2 {
      NoCapNoSpans(samples[..|samples| - 1]);
    }
  }

  /** Each sample but the last is credited its share; with a cap of zero there is no share. */
  function Credited(samples: seq<Agg.PetSample>, cap: U64): seq<Credit>
    requires Increasing(samples)
  {
    if samples == [] || cap == 0 then [] else Shares(samples, cap, |samples| - 1)
  }

  lemma LogIsCredited(stats: Agg.ThreadStats, cap: U64, tid: U32, q: Agg.Query, now: U64)
    requires Increasing(stats.petSamples) && KeepsAll(q, tid)
    requires SpansOf(stats.intervals) == Expected(stats.petSamples, cap)
    requires forall iv :: iv in stats.intervals ==> !iv.kind.SyntheticSpan?
    ensures Sampled(Agg.WalkThread(q, tid, now, stats, Agg.START).credits) == Credited(stats.petSamples, cap)
  {
    hide Sampled, KeepsAll;
    var n := |stats.intervals|;
    if cap == 0 || stats.petSamples == [] {
      NoCapNoSpans(stats.petSamples);
      NoSpans(stats.intervals);
      assert StartSorted(stats.intervals, now);
      NothingSampled(q, tid, now, stats, n);
    } else {
      SpansAscend(stats, cap, now);
      CreditAll(q, tid, now, stats, cap, n);
      assert stats.intervals[..n] == stats.intervals;
      if |stats.petSamples| >= 2 {
        ExpectedAt(stats.petSamples, cap, 0);
      }
    }
    WalkIsNaive(q, tid, now, stats, n, Agg.START);
  }

  // ----------------------------------------------------------------- from records to the query

  ghost predicate NothingEvicted(es: seq<Event>, tid: U32) {
    |SamplesIn(es, tid)| <= Agg.MAX_EVENTS_PER_THREAD && CountIntervals(es, tid) <= Agg.MAX_EVENTS_PER_THREAD
  }

  /** The thread's sample records came at increasing times, and its log was never full. */
  ghost predicate WellTimed(cfg: Config, recs: seq<Rec>, tid: U32) {
    Increasing(SampleRecords(cfg, recs, tid)) && NothingEvicted(Run(cfg, recs).emitted, tid)
  }

  /** The walk over the thread's log credits sample `i` the time to sample `i + 1`, at most the cap. */
  lemma ThreadIsCredited(cfg: Config, recs: seq<Rec>, tid: U32, q: Agg.Query, now: U64)
    requires WellTimed(cfg, recs, tid) && KeepsAll(q, tid)
    ensures Sampled(Agg.WalkThread(q, tid, now, LogOf(Run(cfg, recs).emitted, tid), Agg.START).credits)
         == Credited(SampleRecords(cfg, recs, tid), cfg.maxOnCpuGapNs)
  {
    hide Run, Sampled, Increasing;
    var es := Run(cfg, recs).emitted;
    SamplesOfRun(cfg, recs, tid);
    SessionSpans(cfg, recs, tid);
    LogIsComplete(es, tid);
    LogIsCredited(LogOf(es, tid), cfg.maxOnCpuGapNs, tid, q, now);
  }

  lemma {:induction false} SampledConcat(a: seq<Credit>, b: seq<Credit>)
    ensures Sampled(a + b) == Sampled(a) + Sampled(b)
    decreases |b|
  {
    if b == [] {
      assert a + b == a;
    } else {
      assert (a + b)[..|a + b| - 1] == a + b[..|b| - 1];
      SampledConcat(a, b[..|b| - 1]);
    }
  }

  predicate Selected(q: Agg.Query, tid: U32) {
    q.tid.None? || q.tid.value == tid
  }

  /** The session sends no target spans. */
  lemma {:induction false} NoSpansInLog(es: seq<Event>, tid: U32)
    ensures forall iv :: iv in LogOf(es, tid).intervals ==> !iv.kind.SyntheticSpan?
  {
    if es != [] {
      NoSpansInLog(es[..|es| - 1], tid);
    }
  }

  /** A thread that is not asked for gives nothing. */
  lemma {:induction false} NotSelected(q: Agg.Query, tid: U32, now: U64, stats: Agg.ThreadStats, n: nat)
    requires !Selected(q, tid) && n <= |stats.intervals|
    requires forall iv :: iv in stats.intervals ==> !iv.kind.SyntheticSpan?
    ensures Agg.WalkIntervals(q, tid, now, stats, n, Agg.START).credits == []
  {
    if n > 0 {
      NotSelected(q, tid, now, stats, n - 1);
    }
  }

  /** What the threads of `order` are credited together, in that order. */
  ghost function SharesOf(cfg: Config, recs: seq<Rec>, q: Agg.Query, order: seq<U32>): seq<Credit>
    requires forall t :: t in order && Selected(q, t) ==> WellTimed(cfg, recs, t)
  {
    if order == [] then []
    else
      var t := order[|order| - 1];
      SharesOf(cfg, recs, q, order[..|order| - 1])
      + if Selected(q, t) then assert WellTimed(cfg, recs, t); Credited(SampleRecords(cfg, recs, t), cfg.maxOnCpuGapNs)
        else []
  }

  ghost predicate KeepsSamples(q: Agg.Query) {
    forall t, s :: q.keepSample(t, s)
  }

  lemma OneThread(cfg: Config, recs: seq<Rec>, tid: U32, q: Agg.Query, now: U64)
    requires KeepsSamples(q) && (Selected(q, tid) ==> WellTimed(cfg, recs, tid))
    ensures Sampled(Agg.WalkThread(q, tid, now, LogOf(Run(cfg, recs).emitted, tid), Agg.START).credits)
         == if Selected(q, tid) then Credited(SampleRecords(cfg, recs, tid), cfg.maxOnCpuGapNs) else []
  {
    hide Run, LogOf, Sampled, WellTimed, Credited;
    var stats := LogOf(Run(cfg, recs).emitted, tid);
    if Selected(q, tid) {
      ThreadIsCredited(cfg, recs, tid, q, now);
    } else {
      NoSpansInLog(Run(cfg, recs).emitted, tid);
      NotSelected(q, tid, now, stats, |stats.intervals|);
      EmptySampled();
    }
  }

  /**
   The whole query over what the session sent: for every thread asked for, sample record `i` is credited
   the time to sample record `i + 1`, at most the cap, the last one nothing, and no other thread is.
   */
  lemma {:induction false} SamplesAreCreditedTheirShare(cfg: Config, recs: seq<Rec>, q: Agg.Query, now: U64,
                                                         threads: map<U32, Agg.ThreadStats>, order: seq<U32>)
    requires KeepsSamples(q) && forall t :: t in order && Selected(q, t) ==> WellTimed(cfg, recs, t)
    requires forall t :: t in order ==> t in threads && threads[t] == LogOf(Run(cfg, recs).emitted, t)
    ensures Sampled(Agg.WalkThreads(q, now, threads, order).credits) == SharesOf(cfg, recs, q, order)
  {
    hide Run, LogOf, Sampled, WellTimed, Credited, Agg.WalkThread;
    if order == [] {
      EmptySampled();
    } else {
      var front, t := order[..|order| - 1], order[|order| - 1];
      SamplesAreCreditedTheirShare(cfg, recs, q, now, threads, front);
      var w := Agg.WalkThreads(q, now, threads, front);
      ThreadOrder.ThreadAfter(q, now, threads, t, w);
      var own := ThreadOrder.ThreadWalk(q, now, threads, t);
      SampledConcat(w.credits, own.credits);
      OneThread(cfg, recs, t, q, now);
    }
  }

  /** Sends the aggregator what the session has emitted. */
  method Replay(live: Agg.Aggregator, es: seq<Event>)
    requires live.threads == map[]
    modifies live
    ensures forall t :: Agg.Logged(live.threads, t) == LogOf(es, t)
  {
    hide LogEvent;
    var i := 0;
    while i < |es|
      invariant i <= |es| && forall t :: Agg.Logged(live.threads, t) == LogOf(es[..i], t)
    {
      ghost var before := live.threads;
      Send(live, es[i]);
      i := i + 1;
      assert es[..i][..i - 1] == es[..i - 1];
      forall t ensures Agg.Logged(live.threads, t) == LogOf(es[..i], t) {
        assert Agg.Logged(before, t) == LogOf(es[..i - 1], t);
      }
    }
    assert es[..i] == es;
  }

  method Send(live: Agg.Aggregator, e: Event)
    modifies live
    ensures forall t :: Agg.Logged(live.threads, t) == LogEvent(Agg.Logged(old(live.threads), t), e, t)
  {
    match e {
      case SampleEvent(t, time, user) => live.RecordPetSample(t, Agg.PetSample(time, user, [], NO_PMC));
      case OnCpuEvent(t, start, end) => live.RecordInterval(t, Agg.RawInterval(start, end, Agg.OnCpu));
      case OffCpuEvent(t, start, end, stack, waker) =>
        var who := if waker.Some? then Some(waker.value.tid) else None;
        var from := if waker.Some? then Some(waker.value.user) else None;
        live.RecordInterval(t, Agg.RawInterval(start, end, Agg.OffCpu(stack, who, from)));
      case WakeupEvent(_, _, _) =>
    }
  }

  /** Session, log and query together: the aggregation's sampled credits are the shares of the records. */
  method QueryOfRun(cfg: Config, recs: seq<Rec>, q: Agg.Query) returns (agg: Agg.Aggregation, order: seq<U32>)
    requires KeepsSamples(q) && forall t :: Selected(q, t) ==> WellTimed(cfg, recs, t)
    ensures fresh(agg) && agg.Valid()
    ensures Sampled(agg.credits) == SharesOf(cfg, recs, q, order)
    ensures forall t :: Selected(q, t) && SampleRecords(cfg, recs, t) != [] ==> t in order
    ensures forall i, j :: 0 <= i < j < |order| ==> order[i] != order[j]
  {
    hide Run, LogOf, Sampled, WellTimed, Agg.Aggregation.Valid;
    var live := new Agg.Aggregator();
    Replay(live, Run(cfg, recs).emitted);
    agg, order := live.Aggregate(q);
    forall t | t in order ensures t in live.threads && live.threads[t] == LogOf(Run(cfg, recs).emitted, t) {
      assert Agg.Logged(live.threads, t) == LogOf(Run(cfg, recs).emitted, t);
    }
    SamplesAreCreditedTheirShare(cfg, recs, q, Agg.Now(live.lastEventNs), live.threads, order);
    forall t | Selected(q, t) && SampleRecords(cfg, recs, t) != [] ensures t in order {
      assert Agg.Logged(live.threads, t) == LogOf(Run(cfg, recs).emitted, t);
      SampledThreadIsLogged(cfg, recs, t);
    }
  }

  lemma SampledThreadIsLogged(cfg: Config, recs: seq<Rec>, tid: U32)
    requires WellTimed(cfg, recs, tid) && SampleRecords(cfg, recs, tid) != []
    ensures LogOf(Run(cfg, recs).emitted, tid) != Agg.ThreadStats([], [])
  {
    SamplesOfRun(cfg, recs, tid);
    LogIsComplete(Run(cfg, recs).emitted, tid);
  }
}
