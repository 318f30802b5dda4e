/** A thread's intervals on the time line: on-CPU ones for any arrival order, off-CPU ones
    when the thread's switch records come in time order. */
module SessionTimeline {
  import opened Numbers
  import opened Options
  import opened CallTrie
  import opened Session
  import opened SessionSteps

  function OnCpuOf(es: seq<Event>, tid: U32): seq<Span> {
    if es == [] then []
    else
      var e := es[|es| - 1];
      OnCpuOf(es[..|es| - 1], tid) + if e.OnCpuEvent? && e.tid == tid then [Span(e.start, e.end)] else []
  }

  function OffCpuOf(es: seq<Event>, tid: U32): seq<Span> {
    if es == [] then []
    else
      var e := es[|es| - 1];
      OffCpuOf(es[..|es| - 1], tid) + if e.OffCpuEvent? && e.tid == tid then [Span(e.start, e.end)] else []
  }

  function TotalLength(spans: seq<Span>): int {
    if spans == [] then 0
    else TotalLength(spans[..|spans| - 1]) + spans[|spans| - 1].end - spans[|spans| - 1].start
  }

  /** Non-empty spans, ascending and disjoint, between `lo` and `hi`. */
  ghost predicate Spaced(spans: seq<Span>, lo: int, hi: int) {
    && (forall i :: 0 <= i < |spans| ==> lo <= spans[i].start < spans[i].end <= hi)
    && (forall i, j :: 0 <= i < j < |spans| ==> spans[i].end <= spans[j].start)
  }

  lemma SpacedSnoc(spans: seq<Span>, lo: int, hi: int, s: Span, hi': int)
    requires Spaced(spans, lo, hi) && lo <= hi <= s.start < s.end <= hi'
    ensures Spaced(spans + [s], lo, hi') && TotalLength(spans + [s]) == TotalLength(spans) + s.end - s.start
  {
    assert (spans + [s])[..|spans + [s]| - 1] == spans;
  }

  lemma SnocEvent(es: seq<Event>, e: Event, tid: U32)
    ensures OnCpuOf(es + [e], tid)
         == if e.OnCpuEvent? && e.tid == tid then OnCpuOf(es, tid) + [Span(e.start, e.end)] else OnCpuOf(es, tid)
    ensures OffCpuOf(es + [e], tid)
         == if e.OffCpuEvent? && e.tid == tid then OffCpuOf(es, tid) + [Span(e.start, e.end)] else OffCpuOf(es, tid)
  {
    assert (es + [e])[..|es + [e]| - 1] == es;
  }

  // ----------------------------------------------------------------------------- on-CPU

  predicate IsSampleOf(cfg: Config, r: Rec, tid: U32) {
    r.Sample? && Observable(cfg, r.pid, r.tid) && r.tid == tid && r.time != 0
  }

  /** Time of the thread's first sample with a timestamp. */
  function FirstTime(cfg: Config, recs: seq<Rec>, tid: U32): Option<U64> {
    if recs == [] then None
    else
      var first, r := FirstTime(cfg, recs[..|recs| - 1], tid), recs[|recs| - 1];
      if first.Some? then first else if IsSampleOf(cfg, r, tid) then Some(r.time) else None
  }

  /** Time of the thread's newest sample. */
  function NewestTime(cfg: Config, recs: seq<Rec>, tid: U32): U64 {
    if recs == [] then 0
    else
      var newest, r := NewestTime(cfg, recs[..|recs| - 1], tid), recs[|recs| - 1];
      if IsSampleOf(cfg, r, tid) && r.time > newest then r.time else newest
  }

  /** On-CPU spans between the first and the newest sample time: apart, capped, not too much. */
  ghost predicate OnCpuFacts(on: seq<Span>, first: Option<U64>, newest: Option<U64>, cap: U64) {
    && (first.None? ==> newest.None? && on == [])
    && (first.Some? ==> newest.Some? && 0 < first.value <= newest.value && Spaced(on, first.value, newest.value)
                        && TotalLength(on) <= newest.value - first.value)
    && (forall i :: 0 <= i < |on| ==> on[i].end - on[i].start <= cap)
  }

  lemma OnCpuFactsNext(on: seq<Span>, first: Option<U64>, newest: Option<U64>, cap: U64, time: U64)
    requires OnCpuFacts(on, first, newest, cap) && time > 0
    ensures OnCpuFacts(on + SliceOf(newest, time, cap), if first.Some? then first else Some(time),
                       Some(LaterOf(newest, time)), cap)
  {
    var slice := SliceOf(newest, time, cap);
    if slice != [] {
      SpacedSnoc(on, first.value, newest.value, slice[0], time);
    } else {
      assert on + [] == on;
    }
  }

  ghost predicate OnCpuOk(cfg: Config, recs: seq<Rec>, tid: U32) {
    var s := Run(cfg, recs);
    && OnCpuFacts(OnCpuOf(s.emitted, tid), FirstTime(cfg, recs, tid), LastOf(s, tid), cfg.maxOnCpuGapNs)
    && NewestTime(cfg, recs, tid) == if LastOf(s, tid).Some? then LastOf(s, tid).value else 0
  }

  /** Only a sample of the thread touches what its on-CPU intervals depend on. */
  lemma OtherRecordKeepsOnCpu(cfg: Config, s: State, r: Rec, tid: U32)
    requires !IsSampleOf(cfg, r, tid)
    ensures OnCpuOf(Step(cfg, s, r).emitted, tid) == OnCpuOf(s.emitted, tid)
    ensures LastOf(Step(cfg, s, r), tid) == LastOf(s, tid)
  {
    hide Step, SwitchInStep, SwitchOutStep, SampleStep, WakingStep, OnCpuOf, Observable;
    StepKinds(cfg, s, r);
    if r.Fork? || r.SwitchSample? {
      SeenFields(cfg, s, r);
    } else if r.Waking? {
      WakingKeepsOnCpu(s, r.wakerTid, r.time, r.user, r.wakee, tid);
    } else if r.Lost? || !Observable(cfg, r.pid, r.tid) {
    } else if r.Sample? {
      OtherSampleKeepsOnCpu(cfg, s, r.tid, r.time, r.user, tid);
    } else if r.SwitchIn? {
      SwitchInKeepsOnCpu(s, r.tid, r.time, tid);
    } else {
      SwitchOutFields(s, r.tid, r.time, r.preempted, r.waitSite);
    }
  }

  lemma WakingKeepsOnCpu(s: State, wakerTid: U32, time: U64, user: seq<Addr>, wakee: U32, tid: U32)
    ensures OnCpuOf(WakingStep(s, wakerTid, time, user, wakee).emitted, tid) == OnCpuOf(s.emitted, tid)
    ensures WakingStep(s, wakerTid, time, user, wakee).lastSampleTs == s.lastSampleTs
  {
    hide OnCpuOf, WakingStep;
    WakingFields(s, wakerTid, time, user, wakee);
    SnocEvent(s.emitted, WakeupEvent(wakee, wakerTid, time), tid);
  }

  /** The interval that a switch-in closes, if it closes one. */
  function ClosedBy(s: State, t: U32, time: U64): Event
    requires Closes(s, t, time)
  {
    OffCpuEvent(t, s.offStart[t].start, time, s.offStart[t].stack, FreshWaker(s, t, time))
  }

  lemma SwitchInKeepsOnCpu(s: State, t: U32, time: U64, tid: U32)
    ensures OnCpuOf(SwitchInStep(s, t, time).emitted, tid) == OnCpuOf(s.emitted, tid)
    ensures SwitchInStep(s, t, time).lastSampleTs == s.lastSampleTs
  {
    hide SwitchInStep, OnCpuOf, FreshWaker;
    SwitchInFields(s, t, time);
    if Closes(s, t, time) {
      SnocEvent(s.emitted, ClosedBy(s, t, time), tid);
    }
  }

  lemma OtherSampleKeepsOnCpu(cfg: Config, s: State, t: U32, time: U64, user: seq<Addr>, tid: U32)
    requires t != tid || time == 0
    ensures OnCpuOf(SampleStep(cfg, s, t, time, user).emitted, tid) == OnCpuOf(s.emitted, tid)
    ensures LastOf(SampleStep(cfg, s, t, time, user), tid) == LastOf(s, tid)
  {
    hide SampleStep, SampleEvents, SliceOf, OnCpuOf;
    SampleFields(cfg, s, t, time, user);
    SnocSampleEvents(cfg, s, t, time, user, tid);
    assert OnCpuOf(s.emitted, tid) + [] == OnCpuOf(s.emitted, tid);
  }

  lemma SnocSampleEvents(cfg: Config, s: State, t: U32, time: U64, user: seq<Addr>, tid: U32)
    ensures OnCpuOf(s.emitted + SampleEvents(cfg, s, t, time, user), tid)
         == OnCpuOf(s.emitted, tid)
            + if t == tid && time != 0 then SliceOf(LastOf(s, t), time, cfg.maxOnCpuGapNs) else []
    ensures OffCpuOf(s.emitted + SampleEvents(cfg, s, t, time, user), tid) == OffCpuOf(s.emitted, tid)
  {
    hide OnCpuOf, OffCpuOf;
    var es := SampleEvents(cfg, s, t, time, user);
    SnocEvent(s.emitted, es[0], tid);
    if |es| == 2 {
      SnocEvent(s.emitted + [es[0]], es[1], tid);
      assert s.emitted + es == s.emitted + [es[0]] + [es[1]];
    } else {
      assert es == [es[0]];
    }
  }

  lemma SampleOnCpu(cfg: Config, s: State, tid: U32, time: U64, user: seq<Addr>)
    requires time != 0
    ensures OnCpuOf(SampleStep(cfg, s, tid, time, user).emitted, tid)
         == OnCpuOf(s.emitted, tid) + SliceOf(LastOf(s, tid), time, cfg.maxOnCpuGapNs)
    ensures LastOf(SampleStep(cfg, s, tid, time, user), tid) == Some(LaterOf(LastOf(s, tid), time))
  {
    hide SampleStep, SampleEvents, SliceOf, OnCpuOf;
    SampleFields(cfg, s, tid, time, user);
    SnocSampleEvents(cfg, s, tid, time, user, tid);
  }

  lemma StepIsSample(cfg: Config, s: State, r: Rec, tid: U32)
    requires IsSampleOf(cfg, r, tid)
    ensures Step(cfg, s, r).emitted == SampleStep(cfg, s, tid, r.time, r.user).emitted
    ensures Step(cfg, s, r).lastSampleTs == SampleStep(cfg, s, tid, r.time, r.user).lastSampleTs
  {
    hide SampleStep;
  }

  /**
   Whatever the arrival order, a thread's on-CPU intervals ascend without overlap, none is
   longer than the cap, and together they are at most the time from its first to its newest
   sample.
   */
  lemma {:induction false} OnCpuIntervals(cfg: Config, recs: seq<Rec>, tid: U32)
    ensures OnCpuOk(cfg, recs, tid)
  {
    if recs != [] {
      hide Step, SampleStep, OnCpuFacts;
      var front, r := recs[..|recs| - 1], recs[|recs| - 1];
      OnCpuIntervals(cfg, front, tid);
      var s := Run(cfg, front);
      if IsSampleOf(cfg, r, tid) {
        StepIsSample(cfg, s, r, tid);
        SampleOnCpu(cfg, s, tid, r.time, r.user);
        OnCpuFactsNext(OnCpuOf(s.emitted, tid), FirstTime(cfg, front, tid), LastOf(s, tid), cfg.maxOnCpuGapNs, r.time);
      } else {
        OtherRecordKeepsOnCpu(cfg, s, r, tid);
      }
    }
  }

  // ---------------------------------------------------------------------------- off-CPU

  predicate IsSwitchOf(cfg: Config, r: Rec, tid: U32) {
    (r.SwitchOut? || r.SwitchIn?) && Observable(cfg, r.pid, r.tid) && r.tid == tid
  }

  /** The thread's switch records come in time order. */
  ghost predicate SwitchOrdered(cfg: Config, recs: seq<Rec>, tid: U32) {
    forall i, j :: 0 <= i < j < |recs| && IsSwitchOf(cfg, recs[i], tid) && IsSwitchOf(cfg, recs[j], tid) ==>
      recs[i].time <= recs[j].time
  }

  /** Time of the thread's last switch record. */
  function LastSwitch(cfg: Config, recs: seq<Rec>, tid: U32): U64 {
    if recs == [] then 0
    else if IsSwitchOf(cfg, recs[|recs| - 1], tid) then recs[|recs| - 1].time
    else LastSwitch(cfg, recs[..|recs| - 1], tid)
  }

  lemma {:induction false} LastSwitchBelow(cfg: Config, recs: seq<Rec>, tid: U32, t: U64)
    requires forall i :: 0 <= i < |recs| && IsSwitchOf(cfg, recs[i], tid) ==> recs[i].time <= t
    ensures LastSwitch(cfg, recs, tid) <= t
  {
    if recs != [] {
      LastSwitchBelow(cfg, recs[..|recs| - 1], tid, t);
    }
  }

  function StartOf(s: State, tid: U32): Option<U64> {
    if tid in s.offStart then Some(s.offStart[tid].start) else None
  }

  /** Off-CPU spans apart, all before the pending switch-out, which is not after `last`. */
  ghost predicate OffCpuFacts(off: seq<Span>, parked: Option<U64>, last: int) {
    match parked
    case Some(start) => Spaced(off, 0, start) && start <= last
    case None => Spaced(off, 0, last)
  }

  lemma OtherRecordKeepsOffCpu(cfg: Config, s: State, r: Rec, tid: U32)
    requires !IsSwitchOf(cfg, r, tid)
    ensures OffCpuOf(Step(cfg, s, r).emitted, tid) == OffCpuOf(s.emitted, tid)
    ensures StartOf(Step(cfg, s, r), tid) == StartOf(s, tid)
  {
    hide Step, SwitchInStep, SwitchOutStep, SampleStep, WakingStep, SampleEvents, OffCpuOf, Observable;
    StepKinds(cfg, s, r);
    if r.Fork? || r.SwitchSample? {
      SeenFields(cfg, s, r);
    } else if r.Waking? {
      WakingKeepsOffCpu(s, r.wakerTid, r.time, r.user, r.wakee, tid);
    } else if r.Lost? || !Observable(cfg, r.pid, r.tid) {
    } else if r.Sample? {
      SampleFields(cfg, s, r.tid, r.time, r.user);
      SnocSampleEvents(cfg, s, r.tid, r.time, r.user, tid);
    } else if r.SwitchIn? {
      SwitchInOffCpu(s, r.tid, r.time, tid);
    } else {
      SwitchOutOffCpu(s, r.tid, r.time, r.preempted, r.waitSite, tid);
    }
  }

  lemma WakingKeepsOffCpu(s: State, wakerTid: U32, time: U64, user: seq<Addr>, wakee: U32, tid: U32)
    ensures OffCpuOf(WakingStep(s, wakerTid, time, user, wakee).emitted, tid) == OffCpuOf(s.emitted, tid)
    ensures WakingStep(s, wakerTid, time, user, wakee).offStart == s.offStart
  {
    hide OffCpuOf, WakingStep;
    WakingFields(s, wakerTid, time, user, wakee);
    SnocEvent(s.emitted, WakeupEvent(wakee, wakerTid, time), tid);
  }

  /** A switch-in closes the parked span of its own thread, if that is positive. */
  lemma SwitchInOffCpu(s: State, t: U32, time: U64, tid: U32)
    ensures OffCpuOf(SwitchInStep(s, t, time).emitted, tid)
         == if t == tid && Closes(s, t, time) then OffCpuOf(s.emitted, tid) + [Span(s.offStart[t].start, time)]
            else OffCpuOf(s.emitted, tid)
    ensures StartOf(SwitchInStep(s, t, time), tid) == if t == tid then None else StartOf(s, tid)
  {
    hide SwitchInStep, OffCpuOf, FreshWaker;
    SwitchInFields(s, t, time);
    if Closes(s, t, time) {
      SnocEvent(s.emitted, ClosedBy(s, t, time), tid);
    }
  }

  lemma SwitchOutOffCpu(s: State, t: U32, time: U64, preempted: bool, site: Option<Addr>, tid: U32)
    ensures SwitchOutStep(s, t, time, preempted, site).emitted == s.emitted
    ensures StartOf(SwitchOutStep(s, t, time, preempted, site), tid)
         == if t == tid && !preempted then Some(time) else StartOf(s, tid)
  {
    hide SwitchOutStep, ParkedStack;
    SwitchOutFields(s, t, time, preempted, site);
  }

  lemma StepIsSwitch(cfg: Config, s: State, r: Rec, tid: U32)
    requires IsSwitchOf(cfg, r, tid)
    ensures var s' := if r.SwitchIn? then SwitchInStep(s, tid, r.time)
                      else SwitchOutStep(s, tid, r.time, r.preempted, r.waitSite);
            Step(cfg, s, r).emitted == s'.emitted && StartOf(Step(cfg, s, r), tid) == StartOf(s', tid)
  {
    hide SwitchInStep, SwitchOutStep;
  }

  /** With its switch records in time order, a thread's off-CPU intervals never overlap. */
  lemma {:induction false} OffCpuIntervals(cfg: Config, recs: seq<Rec>, tid: U32)
    requires SwitchOrdered(cfg, recs, tid)
    ensures var s := Run(cfg, recs);
            OffCpuFacts(OffCpuOf(s.emitted, tid), StartOf(s, tid), LastSwitch(cfg, recs, tid))
  {
    if recs != [] {
      hide Step, SwitchInStep, SwitchOutStep, StartOf;
      var front, r := recs[..|recs| - 1], recs[|recs| - 1];
      OffCpuIntervals(cfg, front, tid);
      var s := Run(cfg, front);
      if IsSwitchOf(cfg, r, tid) {
        LastSwitchBelow(cfg, front, tid, r.time);
        StepIsSwitch(cfg, s, r, tid);
        OffCpuFactsNext(OffCpuOf(s.emitted, tid), StartOf(s, tid), LastSwitch(cfg, front, tid), r.time);
        if r.SwitchIn? {
          SwitchInOffCpu(s, tid, r.time, tid);
        } else {
          SwitchOutOffCpu(s, tid, r.time, r.preempted, r.waitSite, tid);
        }
      } else {
        OtherRecordKeepsOffCpu(cfg, s, r, tid);
      }
    }
  }

  lemma OffCpuFactsNext(off: seq<Span>, parked: Option<U64>, last: int, time: U64)
    requires OffCpuFacts(off, parked, last) && last <= time
    ensures OffCpuFacts(off, parked, time) && OffCpuFacts(off, Some(time), time) && OffCpuFacts(off, None, time)
    ensures parked.Some? && time > parked.value ==> OffCpuFacts(off + [Span(parked.value, time)], None, time)
  {
    if parked.Some? && time > parked.value {
      SpacedSnoc(off, 0, parked.value, Span(parked.value, time), time);
    }
    assert off + [] == off;
  }

  /** The intervals closed at teardown do not overlap the others either. */
  lemma {:induction false} OffCpuIntervalsWithTeardown(cfg: Config, recs: seq<Rec>, order: seq<U32>, tid: U32)
    requires SwitchOrdered(cfg, recs, tid)
    ensures var s := Flush(Run(cfg, recs), order);
            OffCpuFacts(OffCpuOf(s.emitted, tid), StartOf(s, tid), Max(LastSwitch(cfg, recs, tid), s.lastTs))
    ensures Flush(Run(cfg, recs), order).lastTs == Run(cfg, recs).lastTs
  {
    if order == [] {
      OffCpuIntervals(cfg, recs, tid);
    } else {
      hide Run;
      var front, t := order[..|order| - 1], order[|order| - 1];
      OffCpuIntervalsWithTeardown(cfg, recs, front, tid);
      var s := Flush(Run(cfg, recs), front);
      if t in s.offStart {
        FlushOneOffCpu(s, t, tid);
        if t == tid && s.lastTs > s.offStart[t].start {
          SpacedSnoc(OffCpuOf(s.emitted, tid), 0, s.offStart[t].start, Span(s.offStart[t].start, s.lastTs),
                     Max(LastSwitch(cfg, recs, tid), s.lastTs));
        }
      }
    }
  }

  lemma FlushOneOffCpu(s: State, t: U32, tid: U32)
    requires t in s.offStart
    ensures var start := s.offStart[t].start;
            OffCpuOf(FlushOne(s, t).emitted, tid)
            == if t == tid && s.lastTs > start then OffCpuOf(s.emitted, tid) + [Span(start, s.lastTs)]
               else OffCpuOf(s.emitted, tid)
    ensures StartOf(FlushOne(s, t), tid) == (if t == tid then None else StartOf(s, tid))
    ensures FlushOne(s, t).lastTs == s.lastTs
  {
    hide FlushOne, OriginOf, OffCpuOf;
    FlushOneFields(s, t);
    var parked := s.offStart[t];
    SnocEvent(s.emitted, OffCpuEvent(t, parked.start, s.lastTs, parked.stack, None), tid);
  }
}
