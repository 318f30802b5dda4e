/**
 What else the session emits, read off the records: the stack of each absence, the slices between a
 thread's samples, and the wakeups.
 */
module SessionEvents {
  import opened Numbers
  import opened Options
  import opened CallTrie
  import opened Session
  import opened SessionSteps
  import opened SessionLaws
  import opened SessionThreads
  import opened SessionRecords
  import SessionTimeline

  // ------------------------------------------------------------------ the stack of an absence

  /** The newest stack taken when the thread was about to block, unless a switch-out came after it. */
  function SwitchStackOf(cfg: Config, recs: seq<Rec>, tid: U32): Option<seq<Addr>> {
    if recs == [] then None
    else
      var r := recs[|recs| - 1];
      if IsOwn(cfg, r, tid) && r.SwitchSample? && r.user != [] then Some(r.user)
      else if IsOwn(cfg, r, tid) && r.SwitchOut? then None
      else SwitchStackOf(cfg, recs[..|recs| - 1], tid)
  }

  /** The newest stack that the thread was sampled with. */
  function SampledStackOf(cfg: Config, recs: seq<Rec>, tid: U32): Option<seq<Addr>> {
    if recs == [] then None
    else
      var r := recs[|recs| - 1];
      if IsOwn(cfg, r, tid) && r.Sample? && r.user != [] then Some(r.user)
      else SampledStackOf(cfg, recs[..|recs| - 1], tid)
  }

  /** The stack a switch-out blocks in: its wait site, then the stack taken for it, else the last one sampled. */
  function StackBlockedIn(cfg: Config, recs: seq<Rec>, k: nat, tid: U32): seq<Addr>
    requires k < |recs|
  {
    var taken, sampled := SwitchStackOf(cfg, recs[..k], tid), SampledStackOf(cfg, recs[..k], tid);
    var user := match taken
                case Some(stack) => stack
                case None => if sampled.Some? then sampled.value else [];
    if recs[k].SwitchOut? && recs[k].waitSite.Some? then [recs[k].waitSite.value] + user else user
  }

  /** Every off-CPU event has the stack that its switch-out blocked in. */
  ghost predicate StacksFrom(cfg: Config, recs: seq<Rec>, off: seq<Event>, os: seq<Origin>) {
    && |off| == |os|
    && forall i :: 0 <= i < |off| ==>
         os[i].out < |recs| && off[i].OffCpuEvent? && off[i].stack == StackBlockedIn(cfg, recs, os[i].out, off[i].tid)
  }

  ghost predicate ParkedStacks(cfg: Config, recs: seq<Rec>, outAt: map<U32, nat>, offStart: map<U32, Parked>) {
    forall t :: t in offStart ==>
      t in outAt && outAt[t] < |recs| && offStart[t].stack == StackBlockedIn(cfg, recs, outAt[t], t)
  }

  ghost predicate StacksOk(cfg: Config, recs: seq<Rec>, s: State) {
    && ParkedStacks(cfg, recs, s.history.outAt, s.offStart)
    && StacksFrom(cfg, recs, OffCpuEvents(s.emitted), s.history.origins)
  }

  lemma StackBlockedLonger(cfg: Config, recs: seq<Rec>, r: Rec, k: nat, tid: U32)
    requires k < |recs|
    ensures StackBlockedIn(cfg, recs + [r], k, tid) == StackBlockedIn(cfg, recs, k, tid)
  {
    assert (recs + [r])[..k] == recs[..k];
  }

  lemma StacksLonger(cfg: Config, recs: seq<Rec>, r: Rec, s: State)
    requires StacksOk(cfg, recs, s)
    ensures StacksOk(cfg, recs + [r], s)
  {
    hide StackBlockedIn, OffCpuEvents;
    forall k: nat, tid | k < |recs| ensures StackBlockedIn(cfg, recs + [r], k, tid) == StackBlockedIn(cfg, recs, k, tid) {
      StackBlockedLonger(cfg, recs, r, k, tid);
    }
  }

  /** The session's stacks of a thread are those of the records. */
  lemma {:induction false} StacksKept(cfg: Config, recs: seq<Rec>, tid: U32)
    ensures var v := Project(Run(cfg, recs), tid);
            v.switchStack == SwitchStackOf(cfg, recs, tid) && v.lastStack == SampledStackOf(cfg, recs, tid)
  {
    if recs != [] {
      hide Step, Project, IsOwn, ViewStep;
      var front, r := recs[..|recs| - 1], recs[|recs| - 1];
      StacksKept(cfg, front, tid);
      StepProjected(cfg, Run(cfg, front), r, tid);
      StacksOfStep(cfg, Project(Run(cfg, front), tid), r, tid);
    }
  }

  lemma StacksOfStep(cfg: Config, v: View, r: Rec, tid: U32)
    ensures ViewStep(cfg, v, r, tid).switchStack
         == if r.SwitchSample? && r.user != [] then Some(r.user) else if r.SwitchOut? then None else v.switchStack
    ensures ViewStep(cfg, v, r, tid).lastStack == if r.Sample? && r.user != [] then Some(r.user) else v.lastStack
  {
    hide SliceOf, BlockedIn;
  }

  lemma ParkedStackIs(cfg: Config, recs: seq<Rec>, tid: U32, site: Option<Addr>, r: Rec)
    requires r.SwitchOut? && r.waitSite == site
    ensures ParkedStack(Run(cfg, recs), tid, site) == StackBlockedIn(cfg, recs + [r], |recs|, tid)
  {
    StacksKept(cfg, recs, tid);
    assert (recs + [r])[..|recs|] == recs && (recs + [r])[|recs|] == r;
    hide Run;
  }

  /** A record that parks no one and emits no off-CPU event. */
  lemma QuietStacks(cfg: Config, recs: seq<Rec>, r: Rec, s: State, s': State)
    requires StacksOk(cfg, recs, s) && s'.history.outAt == s.history.outAt && s'.history.origins == s.history.origins
    requires s'.offStart == s.offStart && OffCpuEvents(s'.emitted) == OffCpuEvents(s.emitted)
    ensures StacksOk(cfg, recs + [r], s')
  {
    StacksLonger(cfg, recs, r, s);
    hide StackBlockedIn, OffCpuEvents;
  }

  lemma ParkedMore(cfg: Config, recs: seq<Rec>, outAt: map<U32, nat>, offStart: map<U32, Parked>, tid: U32, k: nat, parked: Parked)
    requires ParkedStacks(cfg, recs, outAt, offStart) && k < |recs| && parked.stack == StackBlockedIn(cfg, recs, k, tid)
    ensures ParkedStacks(cfg, recs, outAt[tid := k], offStart[tid := parked])
  {
    hide StackBlockedIn;
  }

  lemma ParkedLess(cfg: Config, recs: seq<Rec>, outAt: map<U32, nat>, offStart: map<U32, Parked>, tid: U32)
    requires ParkedStacks(cfg, recs, outAt, offStart)
    ensures ParkedStacks(cfg, recs, outAt - {tid}, offStart - {tid})
    ensures tid !in offStart ==> ParkedStacks(cfg, recs, outAt, offStart - {tid})
  {
    hide StackBlockedIn;
  }

  lemma SwitchOutStacks(cfg: Config, recs: seq<Rec>, r: Rec)
    requires StacksOk(cfg, recs, Run(cfg, recs)) && r.SwitchOut? && Run(cfg, recs).history.handled == |recs|
    ensures StacksOk(cfg, recs + [r], SwitchOutStep(Run(cfg, recs), r.tid, r.time, r.preempted, r.waitSite))
  {
    var s := Run(cfg, recs);
    StacksLonger(cfg, recs, r, s);
    ParkedStackIs(cfg, recs, r.tid, r.waitSite, r);
    hide Run, StackBlockedIn, OffCpuEvents, SwitchOutStep, ParkedStack, StacksFrom, ParkedStacks, Later;
    SwitchOutFields(s, r.tid, r.time, r.preempted, r.waitSite);
    if !r.preempted {
      ParkedMore(cfg, recs + [r], s.history.outAt, s.offStart, r.tid, |recs|,
                 Parked(r.time, ParkedStack(s, r.tid, r.waitSite)));
    }
  }

  lemma OneStackMore(cfg: Config, recs: seq<Rec>, off: seq<Event>, os: seq<Origin>, e: Event, o: Origin)
    requires StacksFrom(cfg, recs, off, os) && o.out < |recs|
    requires e.OffCpuEvent? && e.stack == StackBlockedIn(cfg, recs, o.out, e.tid)
    ensures StacksFrom(cfg, recs, off + [e], os + [o])
  {
    hide StackBlockedIn;
  }

  lemma SwitchInStacksOk(cfg: Config, recs: seq<Rec>, s: State, r: Rec)
    requires StacksOk(cfg, recs, s) && r.SwitchIn?
    ensures StacksOk(cfg, recs + [r], SwitchInStep(s, r.tid, r.time))
  {
    StacksLonger(cfg, recs, r, s);
    if Closes(s, r.tid, r.time) {
      ClosingStacks(cfg, recs + [r], s, r.tid, r.time);
    } else {
      hide StacksFrom, ParkedStacks, OffCpuEvents, SwitchInStep, Later;
      NotClosingFields(s, r.tid, r.time);
      ParkedLess(cfg, recs + [r], s.history.outAt, s.offStart, r.tid);
    }
  }

  lemma ClosingStacks(cfg: Config, recs: seq<Rec>, s: State, tid: U32, time: U64)
    requires StacksOk(cfg, recs, s) && Closes(s, tid, time)
    ensures StacksOk(cfg, recs, SwitchInStep(s, tid, time))
  {
    var waker := FreshWaker(s, tid, time);
    var e := OffCpuEvent(tid, s.offStart[tid].start, time, s.offStart[tid].stack, waker);
    var o := OriginOf(s.history, tid, waker, Some(s.history.handled));
    assert o.out == s.history.outAt[tid];
    OneStackMore(cfg, recs, OffCpuEvents(s.emitted), s.history.origins, e, o);
    ParkedLess(cfg, recs, s.history.outAt, s.offStart, tid);
    hide StackBlockedIn, OffCpuEvents, SwitchInStep, FreshWaker, StacksFrom, ParkedStacks, OriginOf, Later;
    ClosingFields(s, tid, time);
    OffCpuEventsSnoc(s.emitted, e);
  }

  lemma StepStacks(cfg: Config, recs: seq<Rec>, r: Rec)
    requires StacksOk(cfg, recs, Run(cfg, recs)) && Run(cfg, recs).history.handled == |recs|
    ensures StacksOk(cfg, recs + [r], Step(cfg, Run(cfg, recs), r))
  {
    var s := Run(cfg, recs);
    hide Step, StacksOk, OffCpuEvents, SampleStep, SwitchOutStep, SwitchInStep, WakingStep, Observable;
    StepKinds(cfg, s, r);
    if r.Fork? || r.SwitchSample? {
      SeenFields(cfg, s, r);
      QuietStacks(cfg, recs, r, s, Step(cfg, s, r));
    } else if r.Waking? {
      WakingFields(s, r.wakerTid, r.time, r.user, r.wakee);
      OffCpuEventsSnoc(s.emitted, WakeupEvent(r.wakee, r.wakerTid, r.time));
      QuietStacks(cfg, recs, r, s, Step(cfg, s, r));
    } else if r.Lost? || !Observable(cfg, r.pid, r.tid) {
      QuietStacks(cfg, recs, r, s, Step(cfg, s, r));
    } else if r.Sample? {
      SampleIsQuiet(cfg, s, r.tid, r.time, r.user);
      QuietStacks(cfg, recs, r, s, Step(cfg, s, r));
    } else if r.SwitchOut? {
      SwitchOutStacks(cfg, recs, r);
      CountedStacks(cfg, recs + [r], SwitchOutStep(s, r.tid, r.time, r.preempted, r.waitSite));
    } else {
      SwitchInStacksOk(cfg, recs, s, r);
      CountedStacks(cfg, recs + [r], SwitchInStep(s, r.tid, r.time));
    }
  }

  lemma CountedStacks(cfg: Config, recs: seq<Rec>, s: State)
    requires StacksOk(cfg, recs, s)
    ensures StacksOk(cfg, recs, Counted(s))
  {
    hide ParkedStacks, StacksFrom, OffCpuEvents;
  }

  lemma {:induction false} StacksOfRecords(cfg: Config, recs: seq<Rec>)
    ensures StacksOk(cfg, recs, Run(cfg, recs))
  {
    hide Step;
    if recs != [] {
      var front, r := recs[..|recs| - 1], recs[|recs| - 1];
      assert front + [r] == recs;
      hide StacksOk;
      StacksOfRecords(cfg, front);
      RunLinked(cfg, front);
      StepStacks(cfg, front, r);
    }
  }

  lemma {:induction false} FlushStacks(cfg: Config, recs: seq<Rec>, s: State, order: seq<U32>)
    requires StacksOk(cfg, recs, s)
    ensures StacksOk(cfg, recs, Flush(s, order))
  {
    if order != [] {
      var s1, tid := Flush(s, order[..|order| - 1]), order[|order| - 1];
      FlushStacks(cfg, recs, s, order[..|order| - 1]);
      if tid in s1.offStart {
        FlushOneStacks(cfg, recs, s1, tid);
      }
    }
  }

  lemma FlushOneStacks(cfg: Config, recs: seq<Rec>, s: State, tid: U32)
    requires StacksOk(cfg, recs, s) && tid in s.offStart
    ensures StacksOk(cfg, recs, FlushOne(s, tid))
  {
    hide FlushOne, OffCpuEvents, StackBlockedIn, StacksFrom;
    FlushOneFields(s, tid);
    var e := OffCpuEvent(tid, s.offStart[tid].start, s.lastTs, s.offStart[tid].stack, None);
    if s.lastTs > s.offStart[tid].start {
      OffCpuEventsSnoc(s.emitted, e);
      OneStackMore(cfg, recs, OffCpuEvents(s.emitted), s.history.origins, e, OriginOf(s.history, tid, None, None));
    }
  }

  /** Over every run and teardown, each absence has the stack that the thread went to sleep in. */
  lemma StacksOfRun(cfg: Config, recs: seq<Rec>, order: seq<U32>)
    ensures var f := Flush(Run(cfg, recs), order);
            StacksFrom(cfg, recs, OffCpuEvents(f.emitted), f.history.origins)
  {
    hide Run, Flush, ParkedStacks, StacksFrom;
    StacksOfRecords(cfg, recs);
    FlushStacks(cfg, recs, Run(cfg, recs), order);
  }

  // ------------------------------------------------------------------------ slices and wakeups

  /** The times of the thread's own samples, zero being none. */
  function SampleTimes(cfg: Config, recs: seq<Rec>, tid: U32): seq<U64> {
    if recs == [] then []
    else
      var r := recs[|recs| - 1];
      SampleTimes(cfg, recs[..|recs| - 1], tid) + if IsOwn(cfg, r, tid) && r.Sample? && r.time > 0 then [r.time] else []
  }

  function Greatest(times: seq<U64>): (t: U64)
    requires times != []
    ensures t in times && forall u :: u in times ==> u <= t
  {
    if |times| == 1 then times[0]
    else
      var before, last := Greatest(times[..|times| - 1]), times[|times| - 1];
      assert times == times[..|times| - 1] + [last];
      if before < last then last else before
  }

  /** A sample that is later than all before it closes a slice from the latest of them, at most the cap long. */
  function SlicesShown(times: seq<U64>, cap: U64): seq<Span> {
    if |times| < 2 then []
    else
      var front, time := times[..|times| - 1], times[|times| - 1];
      var from := Greatest(front);
      SlicesShown(front, cap)
      + if time <= from || cap == 0 then []
        else if time - from <= cap then [Span(from, time)]
        else assert from + cap < time; [Span(from, from + cap)]
  }

  lemma SlicesSnoc(times: seq<U64>, time: U64, cap: U64)
    ensures SlicesShown(times + [time], cap)
         == SlicesShown(times, cap) + SliceOf(if times == [] then None else Some(Greatest(times)), time, cap)
    ensures Greatest(times + [time]) == LaterOf(if times == [] then None else Some(Greatest(times)), time)
  {
    assert (times + [time])[..|times|] == times;
  }

  lemma SliceStep(cfg: Config, s: State, r: Rec, tid: U32, times: seq<U64>)
    requires IsOwn(cfg, r, tid) && r.Sample? && r.time > 0
    requires LastOf(s, tid) == if times == [] then None else Some(Greatest(times))
    requires SessionTimeline.OnCpuOf(s.emitted, tid) == SlicesShown(times, cfg.maxOnCpuGapNs)
    ensures SessionTimeline.OnCpuOf(Step(cfg, s, r).emitted, tid) == SlicesShown(times + [r.time], cfg.maxOnCpuGapNs)
    ensures LastOf(Step(cfg, s, r), tid) == Some(Greatest(times + [r.time]))
  {
    hide Step, SampleStep, SliceOf, LaterOf, SlicesShown, Greatest, SessionTimeline.OnCpuOf, LastOf;
    SessionTimeline.StepIsSample(cfg, s, r, tid);
    SessionTimeline.SampleOnCpu(cfg, s, tid, r.time, r.user);
    LastAfter(Step(cfg, s, r), SampleStep(cfg, s, tid, r.time, r.user), tid);
    SlicesSnoc(times, r.time, cfg.maxOnCpuGapNs);
  }

  /** A thread's on-CPU slices, whatever order its samples come in. */
  lemma {:induction false} SlicesOfRun(cfg: Config, recs: seq<Rec>, tid: U32)
    ensures var s, times := Run(cfg, recs), SampleTimes(cfg, recs, tid);
            && SessionTimeline.OnCpuOf(s.emitted, tid) == SlicesShown(times, cfg.maxOnCpuGapNs)
            && LastOf(s, tid) == if times == [] then None else Some(Greatest(times))
  {
    hide Step, SlicesShown, Greatest, SessionTimeline.OnCpuOf, LastOf;
    if recs != [] {
      var front, r := recs[..|recs| - 1], recs[|recs| - 1];
      SlicesOfRun(cfg, front, tid);
      if IsOwn(cfg, r, tid) && r.Sample? && r.time > 0 {
        SliceStep(cfg, Run(cfg, front), r, tid, SampleTimes(cfg, front, tid));
      } else {
        SessionTimeline.OtherRecordKeepsOnCpu(cfg, Run(cfg, front), r, tid);
        assert SampleTimes(cfg, recs, tid) == SampleTimes(cfg, front, tid);
      }
    } else {
      NoSlices(cfg, tid);
    }
  }

  lemma LastAfter(s: State, u: State, tid: U32)
    requires s.lastSampleTs == u.lastSampleTs
    ensures LastOf(s, tid) == LastOf(u, tid)
  {
  }

  lemma NoSlices(cfg: Config, tid: U32)
    ensures SessionTimeline.OnCpuOf(START.emitted, tid) == SlicesShown([], cfg.maxOnCpuGapNs) && LastOf(START, tid) == None
  {
  }

  /** Each wakeup of a thread that is known by then. */
  ghost function WakeupsShown(cfg: Config, recs: seq<Rec>, tid: U32): seq<Event> {
    if recs == [] then []
    else
      var front, r := recs[..|recs| - 1], recs[|recs| - 1];
      WakeupsShown(cfg, front, tid)
      + if Wakes(r, tid) && Known(cfg, front, |front|, tid) then [WakeupEvent(tid, r.wakerTid, r.time)] else []
  }

  function WakeupsIn(es: seq<Event>): seq<Event> {
    if es == [] then []
    else WakeupsIn(es[..|es| - 1]) + if es[|es| - 1].WakeupEvent? then [es[|es| - 1]] else []
  }

  lemma WakeupsSnoc(es: seq<Event>, e: Event)
    ensures WakeupsIn(es + [e]) == WakeupsIn(es) + if e.WakeupEvent? then [e] else []
  {
    assert (es + [e])[..|es|] == es;
  }

  lemma WakeupsOfStep(cfg: Config, v: View, r: Rec, tid: U32)
    ensures WakeupsIn(ViewStep(cfg, v, r, tid).events)
         == WakeupsIn(v.events) + if r.Waking? && v.seen then [WakeupEvent(tid, r.wakerTid, r.time)] else []
  {
    hide WakeupsIn, BlockedIn;
    match r
    case Sample(_, _, time, user) =>
      var v' := OnSample(cfg, v, tid, time, user);
      WakeupsSnoc(v.events, SampleEvent(tid, time, user));
      if |v'.events| == |v.events| + 2 {
        assert v'.events == v.events + [SampleEvent(tid, time, user)] + [v'.events[|v.events| + 1]];
        WakeupsSnoc(v.events + [SampleEvent(tid, time, user)], v'.events[|v.events| + 1]);
      } else {
        assert v'.events == v.events + [SampleEvent(tid, time, user)];
      }
    case SwitchIn(_, _, time) =>
      var v' := OnSwitchIn(v, tid, time);
      if v'.events != v.events {
        WakeupsSnoc(v.events, v'.events[|v.events|]);
      }
    case Waking(waker, time, user, _) => WakeupsSnoc(v.events, WakeupEvent(tid, waker, time));
    case _ =>
  }

  /** The wakeups told of a thread are those of the records, from the moment it is known, in order. */
  lemma {:induction false} WakeupsOfRun(cfg: Config, recs: seq<Rec>, tid: U32)
    requires 0 < tid < 0x8000_0000
    ensures WakeupsIn(EventsFor(Run(cfg, recs).emitted, tid)) == WakeupsShown(cfg, recs, tid)
  {
    if recs != [] {
      var front, r := recs[..|recs| - 1], recs[|recs| - 1];
      WakeupsOfRun(cfg, front, tid);
      TargetsAreShown(cfg, front, tid);
      assert forall k :: 0 <= k < |front| ==> front[k] == recs[k];
      hide Step, ViewStep, WakeupsIn, EventsFor, Shows;
      StepProjected(cfg, Run(cfg, front), r, tid);
      WakeupsOfStep(cfg, Project(Run(cfg, front), tid), r, tid);
    }
  }
}
