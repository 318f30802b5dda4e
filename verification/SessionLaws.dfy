/** What holds of every run of the capture session, for any records in any order. */
module SessionLaws {
  import opened Numbers
  import opened Options
  import opened CallTrie
  import opened Session
  import opened SessionSteps

  // --------------------------------------------------------------------- emitted events

  function TidOf(e: Event): U32 {
    match e
    case SampleEvent(tid, _, _) => tid
    case OnCpuEvent(tid, _, _) => tid
    case OffCpuEvent(tid, _, _, _, _) => tid
    case WakeupEvent(wakee, _, _) => wakee
  }

  predicate IntervalOk(e: Event, lastTs: U64) {
    match e
    case OnCpuEvent(_, start, end) => start < end <= lastTs
    case OffCpuEvent(_, start, end, _, _) => start < end <= lastTs
    case _ => true
  }

  /** An event about an established target thread, with a proper interval in the past. */
  predicate EventOk(e: Event, targets: set<U32>, lastTs: U64) {
    TidOf(e) in targets && IntervalOk(e, lastTs)
  }

  ghost predicate EventsOk(s: State) {
    && (forall t :: t in s.targetTids ==> ValidTid(t))
    && s.offStart.Keys <= s.targetTids
    && (forall t :: t in s.lastSampleTs ==> s.lastSampleTs[t] <= s.lastTs)
    && (forall e :: e in s.emitted ==> EventOk(e, s.targetTids, s.lastTs))
  }

  /** More targets, a later newest time and proper new events keep it. */
  lemma EventsOkAfter(s: State, s': State, es: seq<Event>)
    requires EventsOk(s) && s.targetTids <= s'.targetTids && s.lastTs <= s'.lastTs
    requires forall t :: t in s'.targetTids ==> ValidTid(t)
    requires s'.offStart.Keys <= s'.targetTids
    requires forall t :: t in s'.lastSampleTs ==> s'.lastSampleTs[t] <= s'.lastTs
    requires s'.emitted == s.emitted + es && forall e :: e in es ==> EventOk(e, s'.targetTids, s'.lastTs)
    ensures EventsOk(s')
  {
  }

  // ----------------------------------------------------------------------------- counts

  function CountSamples(es: seq<Event>): nat {
    if es == [] then 0 else CountSamples(es[..|es| - 1]) + if es[|es| - 1].SampleEvent? then 1 else 0
  }

  function CountOnCpu(es: seq<Event>): nat {
    if es == [] then 0 else CountOnCpu(es[..|es| - 1]) + if es[|es| - 1].OnCpuEvent? then 1 else 0
  }

  function CountOffCpu(es: seq<Event>): nat {
    if es == [] then 0 else CountOffCpu(es[..|es| - 1]) + if es[|es| - 1].OffCpuEvent? then 1 else 0
  }

  /** The summary's counters are the numbers of emitted events, up to saturation. */
  ghost predicate CountsOk(s: State) {
    && s.summary.samples == Min(U64_MAX, CountSamples(s.emitted))
    && s.summary.intervals == Min(U64_MAX, CountOnCpu(s.emitted))
    && s.summary.offCpuIntervals == Min(U64_MAX, CountOffCpu(s.emitted))
  }

  lemma CountSnoc(es: seq<Event>, e: Event)
    ensures CountSamples(es + [e]) == CountSamples(es) + if e.SampleEvent? then 1 else 0
    ensures CountOnCpu(es + [e]) == CountOnCpu(es) + if e.OnCpuEvent? then 1 else 0
    ensures CountOffCpu(es + [e]) == CountOffCpu(es) + if e.OffCpuEvent? then 1 else 0
  {
    assert (es + [e])[..|es + [e]| - 1] == es;
  }

  ghost predicate Laws(s: State) {
    EventsOk(s) && CountsOk(s)
  }

  // ------------------------------------------------------------------------------ each step

  lemma SampleEventsOk(cfg: Config, s: State, tid: U32, time: U64, user: seq<Addr>)
    requires EventsOk(s)
    ensures forall e :: e in SampleEvents(cfg, s, tid, time, user) ==>
              EventOk(e, s.targetTids + {tid}, if time == 0 then s.lastTs else Later(s.lastTs, time))
  {
  }

  lemma SampleTimesOk(s: State, tid: U32, time: U64)
    requires EventsOk(s)
    ensures var times := s.lastSampleTs[tid := LaterOf(LastOf(s, tid), time)];
            forall t :: t in times ==> times[t] <= Later(s.lastTs, time)
  {
  }

  lemma SampleCountsOk(s: State, s': State, es: seq<Event>)
    requires CountsOk(s) && s'.emitted == s.emitted + es
    requires (|es| == 1 && es[0].SampleEvent?) || (|es| == 2 && es[0].SampleEvent? && es[1].OnCpuEvent?)
    requires s'.summary == SliceCounted(s.summary.(samples := SatAdd(s.summary.samples, 1)), |es| - 1)
    ensures CountsOk(s')
  {
    hide CountSamples, CountOnCpu, CountOffCpu;
    CountSnoc(s.emitted, es[0]);
    if |es| == 2 {
      CountSnoc(s.emitted + [es[0]], es[1]);
      assert s.emitted + es == s.emitted + [es[0]] + [es[1]];
    } else {
      assert es == [es[0]];
    }
  }

  lemma SampleLaws(cfg: Config, s: State, tid: U32, time: U64, user: seq<Addr>)
    requires Laws(s) && ValidTid(tid)
    ensures Laws(SampleStep(cfg, s, tid, time, user))
  {
    var s', es := SampleStep(cfg, s, tid, time, user), SampleEvents(cfg, s, tid, time, user);
    SampleFields(cfg, s, tid, time, user);
    SampleEventsOk(cfg, s, tid, time, user);
    SampleTimesOk(s, tid, time);
    hide SampleStep, SliceOf, EventOk;
    SampleCountsOk(s, s', es);
    hide SampleEvents, CountsOk;
    EventsOkAfter(s, s', es);
  }

  lemma SwitchOutLaws(s: State, tid: U32, time: U64, preempted: bool, site: Option<Addr>)
    requires Laws(s) && ValidTid(tid)
    ensures Laws(SwitchOutStep(s, tid, time, preempted, site))
  {
    SwitchOutFields(s, tid, time, preempted, site);
    hide SwitchOutStep, ParkedStack;
    EventsOkAfter(s, SwitchOutStep(s, tid, time, preempted, site), []);
  }

  lemma SwitchInLaws(s: State, tid: U32, time: U64)
    requires Laws(s) && ValidTid(tid)
    ensures Laws(SwitchInStep(s, tid, time))
  {
    var s' := SwitchInStep(s, tid, time);
    if Closes(s, tid, time) {
      ClosingFields(s, tid, time);
      var e := OffCpuEvent(tid, s.offStart[tid].start, time, s.offStart[tid].stack, FreshWaker(s, tid, time));
      hide SwitchInStep, FreshWaker, OriginOf;
      EventsOkAfter(s, s', [e]);
      hide EventsOk, CountSamples, CountOnCpu, CountOffCpu;
      CountSnoc(s.emitted, e);
    } else {
      NotClosingFields(s, tid, time);
      hide SwitchInStep;
      EventsOkAfter(s, s', []);
    }
  }

  lemma WakingLaws(s: State, waker: U32, time: U64, user: seq<Addr>, wakee: U32)
    requires Laws(s)
    ensures Laws(WakingStep(s, waker, time, user, wakee))
  {
    var s', e := WakingStep(s, waker, time, user, wakee), WakeupEvent(wakee, waker, time);
    WakingFields(s, waker, time, user, wakee);
    hide WakingStep;
    if WakingCounts(s, waker, wakee) {
      EventsOkAfter(s, s', [e]);
      hide EventsOk, CountSamples, CountOnCpu, CountOffCpu;
      CountSnoc(s.emitted, e);
    }
  }

  /** What counts no event and emits none, and adds at most one valid thread. */
  lemma QuietLaws(s: State, s': State)
    requires Laws(s) && s'.emitted == s.emitted && s'.offStart == s.offStart
    requires s'.lastSampleTs == s.lastSampleTs && s'.lastTs == s.lastTs && s.targetTids <= s'.targetTids
    requires forall t :: t in s'.targetTids ==> t in s.targetTids || ValidTid(t)
    requires s'.summary.(lostRecords := 0) == s.summary.(lostRecords := 0)
    ensures Laws(s')
  {
    EventsOkAfter(s, s', []);
  }

  lemma StepLaws(cfg: Config, s: State, r: Rec)
    requires Laws(s)
    ensures Laws(Step(cfg, s, r))
  {
    hide Laws, Step, SampleStep, SwitchOutStep, SwitchInStep, WakingStep;
    StepKinds(cfg, s, r);
    if r.Fork? || r.SwitchSample? {
      SeenFields(cfg, s, r);
      QuietLaws(s, Step(cfg, s, r));
    } else if r.Waking? {
      WakingLaws(s, r.wakerTid, r.time, r.user, r.wakee);
      var s' := WakingStep(s, r.wakerTid, r.time, r.user, r.wakee);
      QuietLaws(s', Counted(s'));
    } else if r.Lost? || !Observable(cfg, r.pid, r.tid) {
      QuietLaws(s, Step(cfg, s, r));
    } else if r.Sample? {
      SampleLaws(cfg, s, r.tid, r.time, r.user);
      var s' := SampleStep(cfg, s, r.tid, r.time, r.user);
      QuietLaws(s', Counted(s'));
    } else if r.SwitchOut? {
      SwitchOutLaws(s, r.tid, r.time, r.preempted, r.waitSite);
      var s' := SwitchOutStep(s, r.tid, r.time, r.preempted, r.waitSite);
      QuietLaws(s', Counted(s'));
    } else {
      SwitchInLaws(s, r.tid, r.time);
      var s' := SwitchInStep(s, r.tid, r.time);
      QuietLaws(s', Counted(s'));
    }
  }

  lemma FlushOneLaws(s: State, tid: U32)
    requires Laws(s) && tid in s.offStart
    ensures Laws(FlushOne(s, tid))
  {
    FlushOneFields(s, tid);
    hide FlushOne, OriginOf;
    var parked := s.offStart[tid];
    var e := OffCpuEvent(tid, parked.start, s.lastTs, parked.stack, None);
    if s.lastTs > parked.start {
      assert EventOk(e, s.targetTids, s.lastTs);
      hide EventOk;
      EventsOkAfter(s, FlushOne(s, tid), [e]);
      hide EventsOk, CountSamples, CountOnCpu, CountOffCpu;
      CountSnoc(s.emitted, e);
    } else {
      EventsOkAfter(s, FlushOne(s, tid), []);
    }
  }

  /** Over every run: right threads, proper intervals, right counts. */
  lemma {:induction false} RunLaws(cfg: Config, recs: seq<Rec>)
    ensures Laws(Run(cfg, recs))
  {
    if recs != [] {
      hide Laws, Step;
      RunLaws(cfg, recs[..|recs| - 1]);
      StepLaws(cfg, Run(cfg, recs[..|recs| - 1]), recs[|recs| - 1]);
    }
  }

  /** The same after the teardown flush. */
  lemma {:induction false} FlushLaws(s: State, order: seq<U32>)
    requires Laws(s)
    ensures Laws(Flush(s, order))
  {
    if order != [] {
      hide Laws, FlushOne;
      var s1, tid := Flush(s, order[..|order| - 1]), order[|order| - 1];
      FlushLaws(s, order[..|order| - 1]);
      if tid in s1.offStart {
        FlushOneLaws(s1, tid);
      }
    }
  }
}
