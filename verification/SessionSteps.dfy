/** What each step of the session does, field by field; all further reasoning starts from here. */
module SessionSteps {
  import opened Numbers
  import opened Options
  import opened CallTrie
  import opened Session

  datatype Span = Span(start: U64, end: U64)

  /** Time of the thread's newest sample so far. */
  function LastOf(s: State, tid: U32): Option<U64> {
    if tid in s.lastSampleTs then Some(s.lastSampleTs[tid]) else None
  }

  function SliceOf(last: Option<U64>, time: U64, cap: U64): seq<Span> {
    if last.Some? && time > last.value && cap > 0 then
      [Span(last.value, last.value + Min(time - last.value, cap))]
    else []
  }

  function LaterOf(last: Option<U64>, time: U64): U64 {
    if last.Some? && last.value >= time then last.value else time
  }

  /** A sample emits itself and closes at most one slice, from the newest sample so far. */
  function SampleEvents(cfg: Config, s: State, tid: U32, time: U64, user: seq<Addr>): seq<Event> {
    var slice := if time == 0 then [] else SliceOf(LastOf(s, tid), time, cfg.maxOnCpuGapNs);
    if slice == [] then [SampleEvent(tid, time, user)]
    else [SampleEvent(tid, time, user), OnCpuEvent(tid, slice[0].start, slice[0].end)]
  }

  // ------------------------------------------------------------------------------- samples

  lemma EmitSampleFields(s: State, tid: U32, time: U64, user: seq<Addr>)
    ensures var s' := EmitSample(Observed(s, tid), tid, time, user);
            && s' == s.(targetTids := s.targetTids + {tid}, emitted := s.emitted + [SampleEvent(tid, time, user)],
                        summary := s.summary.(samples := SatAdd(s.summary.samples, 1)))
  {
  }

  lemma EmitSliceFields(cfg: Config, s: State, tid: U32, time: U64)
    ensures var s', slice := EmitSlice(cfg, s, tid, time), SliceOf(LastOf(s, tid), time, cfg.maxOnCpuGapNs);
            if slice == [] then s' == s
            else s' == s.(emitted := s.emitted + [OnCpuEvent(tid, slice[0].start, slice[0].end)],
                          summary := s.summary.(intervals := SatAdd(s.summary.intervals, 1)))
  {
  }

  lemma AdvanceFields(s: State, tid: U32, time: U64)
    ensures AdvanceSample(s, tid, time)
         == s.(lastSampleTs := s.lastSampleTs[tid := LaterOf(LastOf(s, tid), time)], lastTs := Later(s.lastTs, time))
  {
    if tid in s.lastSampleTs && s.lastSampleTs[tid] >= time {
      assert s.lastSampleTs == s.lastSampleTs[tid := s.lastSampleTs[tid]];
    }
  }

  lemma RememberFields(s: State, tid: U32, user: seq<Addr>)
    ensures RememberStack(s, tid, user)
         == s.(lastUserStack := if user == [] then s.lastUserStack else s.lastUserStack[tid := user])
  {
  }

  /** A sample leaves alone what switches and wakeups are about. */
  ghost predicate OnlySampled(s: State, s': State) {
    && s'.switchStack == s.switchStack && s'.offStart == s.offStart && s'.recentWaking == s.recentWaking
    && s'.history == s.history
  }

  function SliceCounted(u: Summary, slices: nat): Summary {
    if slices == 0 then u else u.(intervals := SatAdd(u.intervals, 1))
  }

  lemma TimedSampleFields(cfg: Config, s: State, tid: U32, time: U64)
    ensures var s', slice := AdvanceSample(EmitSlice(cfg, s, tid, time), tid, time), SliceOf(LastOf(s, tid), time, cfg.maxOnCpuGapNs);
            && OnlySampled(s, s') && s'.targetTids == s.targetTids && s'.lastUserStack == s.lastUserStack
            && s'.emitted == s.emitted + (if slice == [] then [] else [OnCpuEvent(tid, slice[0].start, slice[0].end)])
            && s'.lastSampleTs == s.lastSampleTs[tid := LaterOf(LastOf(s, tid), time)] && s'.lastTs == Later(s.lastTs, time)
            && s'.summary == SliceCounted(s.summary, |slice|)
  {
    EmitSliceFields(cfg, s, tid, time);
    var e := EmitSlice(cfg, s, tid, time);
    AdvanceFields(e, tid, time);
    hide EmitSlice, AdvanceSample, SliceOf, LaterOf, Later;
    assert LastOf(e, tid) == LastOf(s, tid);
  }

  lemma SampleFields(cfg: Config, s: State, tid: U32, time: U64, user: seq<Addr>)
    ensures var s' := SampleStep(cfg, s, tid, time, user);
            && OnlySampled(s, s') && s'.targetTids == s.targetTids + {tid}
            && s'.emitted == s.emitted + SampleEvents(cfg, s, tid, time, user)
            && s'.lastSampleTs == (if time == 0 then s.lastSampleTs else s.lastSampleTs[tid := LaterOf(LastOf(s, tid), time)])
            && s'.lastTs == (if time == 0 then s.lastTs else Later(s.lastTs, time))
            && s'.summary == SliceCounted(s.summary.(samples := SatAdd(s.summary.samples, 1)),
                                          |SampleEvents(cfg, s, tid, time, user)| - 1)
            && s'.lastUserStack == if user == [] then s.lastUserStack else s.lastUserStack[tid := user]
  {
    var s1 := EmitSample(Observed(s, tid), tid, time, user);
    EmitSampleFields(s, tid, time, user);
    TimedSampleFields(cfg, s1, tid, time);
    var s2 := if time == 0 then s1 else AdvanceSample(EmitSlice(cfg, s1, tid, time), tid, time);
    RememberFields(s2, tid, user);
    hide EmitSample, EmitSlice, AdvanceSample, RememberStack, Observed, SliceOf, LaterOf, Later;
    assert LastOf(s1, tid) == LastOf(s, tid);
  }

  // ------------------------------------------------------------------------------ switches

  lemma SwitchOutFields(s: State, tid: U32, time: U64, preempted: bool, site: Option<Addr>)
    ensures var s' := SwitchOutStep(s, tid, time, preempted, site);
            && s'.targetTids == s.targetTids + {tid} && s'.recentWaking == s.recentWaking && s'.emitted == s.emitted
            && s'.lastSampleTs == s.lastSampleTs && s'.lastUserStack == s.lastUserStack
            && s'.switchStack == s.switchStack - {tid} && s'.lastTs == Later(s.lastTs, time) && s'.summary == s.summary
            && s'.offStart == (if preempted then s.offStart else s.offStart[tid := Parked(time, ParkedStack(s, tid, site))])
            && s'.history
               == if preempted then s.history else s.history.(outAt := s.history.outAt[tid := s.history.handled])
  {
    assert ParkedStack(Observed(s, tid).(lastTs := Later(s.lastTs, time)), tid, site) == ParkedStack(s, tid, site);
    hide ParkedStack, Later;
  }

  predicate Closes(s: State, tid: U32, time: U64) {
    tid in s.offStart && time > s.offStart[tid].start
  }

  /** A switch-in of a parked thread that was away for some time: the interval, and its records. */
  lemma ClosingFields(s: State, tid: U32, time: U64)
    requires Closes(s, tid, time)
    ensures var s', waker := SwitchInStep(s, tid, time), FreshWaker(s, tid, time);
            s' == s.(targetTids := s.targetTids + {tid}, lastTs := Later(s.lastTs, time), offStart := s.offStart - {tid},
                     recentWaking := s.recentWaking - {tid},
                     emitted := s.emitted + [OffCpuEvent(tid, s.offStart[tid].start, time, s.offStart[tid].stack, waker)],
                     summary := s.summary.(offCpuIntervals := SatAdd(s.summary.offCpuIntervals, 1)),
                     history := s.history.(outAt := s.history.outAt - {tid}, wakeAt := s.history.wakeAt - {tid},
                       origins := s.history.origins + [OriginOf(s.history, tid, waker, Some(s.history.handled))]))
  {
    var o := Observed(s, tid).(lastTs := Later(s.lastTs, time));
    assert FreshWaker(o, tid, time) == FreshWaker(s, tid, time);
    hide FreshWaker, OriginOf, Later;
  }

  /** Any other switch-in. */
  lemma NotClosingFields(s: State, tid: U32, time: U64)
    requires !Closes(s, tid, time)
    ensures SwitchInStep(s, tid, time)
         == s.(targetTids := s.targetTids + {tid}, lastTs := Later(s.lastTs, time), offStart := s.offStart - {tid},
               history := if tid in s.offStart then s.history.(outAt := s.history.outAt - {tid}) else s.history)
  {
    hide Later;
    if tid !in s.offStart {
      assert s.offStart - {tid} == s.offStart;
    }
  }

  lemma SwitchInFields(s: State, t: U32, time: U64)
    ensures var s' := SwitchInStep(s, t, time);
            && s'.targetTids == s.targetTids + {t} && s'.offStart == s.offStart - {t} && s'.lastTs == Later(s.lastTs, time)
            && s'.lastSampleTs == s.lastSampleTs && s'.lastUserStack == s.lastUserStack && s'.switchStack == s.switchStack
            && if Closes(s, t, time) then
                 && s'.recentWaking == s.recentWaking - {t}
                 && s'.emitted == s.emitted + [OffCpuEvent(t, s.offStart[t].start, time, s.offStart[t].stack, FreshWaker(s, t, time))]
               else s'.recentWaking == s.recentWaking && s'.emitted == s.emitted
  {
    if Closes(s, t, time) { ClosingFields(s, t, time); } else { NotClosingFields(s, t, time); }
    hide SwitchInStep, FreshWaker, OriginOf, Later;
  }

  // ------------------------------------------------------------------------ wakeups and others

  predicate WakingCounts(s: State, wakerTid: U32, wakee: U32) {
    ValidTid(wakee) && wakee in s.targetTids && wakerTid <= I32_MAX
  }

  lemma WakingFields(s: State, waker: U32, time: U64, user: seq<Addr>, wakee: U32)
    ensures WakingStep(s, waker, time, user, wakee)
         == if WakingCounts(s, waker, wakee) then
              s.(lastTs := Later(s.lastTs, time), emitted := s.emitted + [WakeupEvent(wakee, waker, time)],
                 recentWaking := s.recentWaking[wakee := RecentWaking(waker, user, time)],
                 history := s.history.(wakeAt := s.history.wakeAt[wakee := s.history.handled]))
            else s
  {
    hide Later;
  }

  /** The record counted as handled. */
  function Counted(s: State): State {
    s.(history := s.history.(handled := s.history.handled + 1))
  }

  /** A step is the handling of its record, counted. */
  lemma StepKinds(cfg: Config, s: State, r: Rec)
    ensures r.Sample? && Observable(cfg, r.pid, r.tid) ==>
              Step(cfg, s, r) == Counted(SampleStep(cfg, s, r.tid, r.time, r.user))
    ensures r.SwitchOut? && Observable(cfg, r.pid, r.tid) ==>
              Step(cfg, s, r) == Counted(SwitchOutStep(s, r.tid, r.time, r.preempted, r.waitSite))
    ensures r.SwitchIn? && Observable(cfg, r.pid, r.tid) ==> Step(cfg, s, r) == Counted(SwitchInStep(s, r.tid, r.time))
    ensures r.Waking? ==> Step(cfg, s, r) == Counted(WakingStep(s, r.wakerTid, r.time, r.user, r.wakee))
    ensures (r.Sample? || r.SwitchOut? || r.SwitchIn?) && !Observable(cfg, r.pid, r.tid) ==> Step(cfg, s, r) == Counted(s)
    ensures r.Lost? ==>
              Step(cfg, s, r) == Counted(s.(summary := s.summary.(lostRecords := SatAdd(s.summary.lostRecords, r.count))))
  {
    hide SampleStep, SwitchOutStep, SwitchInStep, WakingStep, Observable;
  }

  /** A thread seen, by a fork or by the stack it is about to block in. */
  lemma SeenFields(cfg: Config, s: State, r: Rec)
    requires r.Fork? || r.SwitchSample?
    ensures var seen, stack := Observable(cfg, r.pid, r.tid), if r.SwitchSample? then r.user else [];
            Step(cfg, s, r)
            == Counted(s.(targetTids := if seen then s.targetTids + {r.tid} else s.targetTids,
                          switchStack := if seen && stack != [] then s.switchStack[r.tid := stack] else s.switchStack))
  {
    hide Observable;
  }

  // ------------------------------------------------------------------------------ teardown

  lemma FlushOneFields(s: State, tid: U32)
    requires tid in s.offStart
    ensures var parked := s.offStart[tid];
            FlushOne(s, tid)
            == if s.lastTs > parked.start then
                 s.(offStart := s.offStart - {tid},
                    emitted := s.emitted + [OffCpuEvent(tid, parked.start, s.lastTs, parked.stack, None)],
                    summary := s.summary.(offCpuIntervals := SatAdd(s.summary.offCpuIntervals, 1)),
                    history := s.history.(outAt := s.history.outAt - {tid},
                      origins := s.history.origins + [OriginOf(s.history, tid, None, None)]))
               else s.(offStart := s.offStart - {tid}, history := s.history.(outAt := s.history.outAt - {tid}))
  {
    hide OriginOf;
  }
}
