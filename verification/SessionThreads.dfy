/**
 The session keeps its threads in shared maps. Seen from one thread it is a small machine of its
 own, driven by that thread's records and the wakeups aimed at it: threads do not interfere.
 */
module SessionThreads {
  import opened Numbers
  import opened Options
  import opened CallTrie
  import opened Session
  import opened SessionLaws
  import opened SessionSteps

  /** What the session knows about one thread, and what it has told the sink about it. */
  datatype View = View(
    seen: bool,
    lastSample: Option<U64>,
    lastStack: Option<seq<Addr>>,
    switchStack: Option<seq<Addr>>,
    parked: Option<Parked>,
    waking: Option<RecentWaking>,
    events: seq<Event>)

  const UNSEEN := View(false, None, None, None, None, None, [])

  /** A thread of the target process: thread ids are positive 32-bit numbers. */
  predicate OfTarget(cfg: Config, pid: U32, tid: U32) {
    pid == cfg.pid && 0 < tid < 0x8000_0000
  }

  predicate IsOwn(cfg: Config, r: Rec, tid: U32) {
    match r
    case Fork(pid, t) => OfTarget(cfg, pid, t) && t == tid
    case SwitchSample(pid, t, _) => OfTarget(cfg, pid, t) && t == tid
    case Sample(pid, t, _, _) => OfTarget(cfg, pid, t) && t == tid
    case SwitchOut(pid, t, _, _, _) => OfTarget(cfg, pid, t) && t == tid
    case SwitchIn(pid, t, _) => OfTarget(cfg, pid, t) && t == tid
    case Waking(waker, _, _, wakee) => 0 < wakee < 0x8000_0000 && waker < 0x8000_0000 && wakee == tid
    case Lost(_) => false
  }

  function OnSample(cfg: Config, v: View, tid: U32, time: U64, user: seq<Addr>): View {
    var slice := if time == 0 then [] else SliceOf(v.lastSample, time, cfg.maxOnCpuGapNs);
    v.(seen := true,
       lastSample := if time == 0 then v.lastSample else Some(LaterOf(v.lastSample, time)),
       lastStack := if user == [] then v.lastStack else Some(user),
       events := v.events + [SampleEvent(tid, time, user)]
                 + if slice == [] then [] else [OnCpuEvent(tid, slice[0].start, slice[0].end)])
  }

  /** Where the thread blocked: the wait site, over its newest known stack. */
  function BlockedIn(v: View, site: Option<Addr>): seq<Addr> {
    (if site.Some? then [site.value] else [])
    + if v.switchStack.Some? then v.switchStack.value else if v.lastStack.Some? then v.lastStack.value else []
  }

  function OnSwitchIn(v: View, tid: U32, time: U64): View {
    if v.parked.None? then v.(seen := true)
    else if time <= v.parked.value.start then v.(seen := true, parked := None)
    else
      var recent := v.waking.Some? && (time <= v.waking.value.time || time - v.waking.value.time <= WAKING_STALENESS_NS);
      var waker := if recent then Some(Waker(v.waking.value.wakerTid, v.waking.value.user)) else None;
      v.(seen := true, parked := None, waking := None,
         events := v.events + [OffCpuEvent(tid, v.parked.value.start, time, v.parked.value.stack, waker)])
  }

  function ViewStep(cfg: Config, v: View, r: Rec, tid: U32): View {
    match r
    case Fork(_, _) => v.(seen := true)
    case SwitchSample(_, _, user) => v.(seen := true, switchStack := if user == [] then v.switchStack else Some(user))
    case Sample(_, _, time, user) => OnSample(cfg, v, tid, time, user)
    case SwitchOut(_, _, time, preempted, site) =>
      v.(seen := true, switchStack := None,
         parked := if preempted then v.parked else Some(Parked(time, BlockedIn(v, site))))
    case SwitchIn(_, _, time) => OnSwitchIn(v, tid, time)
    case Waking(waker, time, user, _) =>
      if !v.seen then v
      else v.(waking := Some(RecentWaking(waker, user, time)), events := v.events + [WakeupEvent(tid, waker, time)])
    case Lost(_) => v
  }

  /** The thread's own records, in order. */
  function OwnRecords(cfg: Config, recs: seq<Rec>, tid: U32): seq<Rec> {
    if recs == [] then []
    else
      var front, r := recs[..|recs| - 1], recs[|recs| - 1];
      OwnRecords(cfg, front, tid) + if IsOwn(cfg, r, tid) then [r] else []
  }

  function ViewRun(cfg: Config, own: seq<Rec>, tid: U32): View {
    if own == [] then UNSEEN else ViewStep(cfg, ViewRun(cfg, own[..|own| - 1], tid), own[|own| - 1], tid)
  }

  // ---------------------------------------------------------------------- the session's side

  function Get<V>(m: map<U32, V>, t: U32): Option<V> {
    if t in m then Some(m[t]) else None
  }

  function EventsFor(es: seq<Event>, tid: U32): seq<Event> {
    if es == [] then []
    else EventsFor(es[..|es| - 1], tid) + if TidOf(es[|es| - 1]) == tid then [es[|es| - 1]] else []
  }

  function Project(s: State, tid: U32): View {
    View(tid in s.targetTids, LastOf(s, tid), Get(s.lastUserStack, tid), Get(s.switchStack, tid),
         Get(s.offStart, tid), Get(s.recentWaking, tid), EventsFor(s.emitted, tid))
  }

  lemma EventsForOneMore(es: seq<Event>, e: Event, tid: U32)
    ensures EventsFor(es + [e], tid) == EventsFor(es, tid) + if TidOf(e) == tid then [e] else []
  {
    assert (es + [e])[..|es + [e]| - 1] == es;
  }

  // -------------------------------------------------------------------------------- samples

  lemma EventsForSample(cfg: Config, s: State, t: U32, time: U64, user: seq<Addr>, tid: U32)
    ensures EventsFor(s.emitted + SampleEvents(cfg, s, t, time, user), tid)
         == EventsFor(s.emitted, tid) + if t == tid then SampleEvents(cfg, s, t, time, user) else []
  {
    hide EventsFor;
    var es := SampleEvents(cfg, s, t, time, user);
    EventsForOneMore(s.emitted, es[0], tid);
    if |es| == 2 {
      EventsForOneMore(s.emitted + [es[0]], es[1], tid);
      assert s.emitted + es == (s.emitted + [es[0]]) + [es[1]];
    } else {
      assert es == [es[0]];
    }
  }

  lemma SampleProjected(cfg: Config, s: State, t: U32, time: U64, user: seq<Addr>, tid: U32)
    ensures Project(SampleStep(cfg, s, t, time, user), tid)
         == if t == tid then OnSample(cfg, Project(s, tid), tid, time, user) else Project(s, tid)
  {
    hide SampleStep, EventsFor;
    SampleFields(cfg, s, t, time, user);
    EventsForSample(cfg, s, t, time, user, tid);
  }

  // ------------------------------------------------------------------------------- switches

  lemma SwitchOutProjected(cfg: Config, s: State, t: U32, time: U64, preempted: bool, site: Option<Addr>, pid: U32, tid: U32)
    ensures Project(SwitchOutStep(s, t, time, preempted, site), tid)
         == if t == tid then ViewStep(cfg, Project(s, tid), SwitchOut(pid, t, time, preempted, site), tid) else Project(s, tid)
  {
    hide EventsFor, SwitchOutStep;
    SwitchOutFields(s, t, time, preempted, site);
    assert ParkedStack(s, tid, site) == BlockedIn(Project(s, tid), site);
    hide ParkedStack, BlockedIn;
  }

  lemma SwitchInProjected(s: State, t: U32, time: U64, tid: U32)
    ensures Project(SwitchInStep(s, t, time), tid) == if t == tid then OnSwitchIn(Project(s, tid), tid, time) else Project(s, tid)
  {
    hide SwitchInStep, EventsFor;
    SwitchInFields(s, t, time);
    if Closes(s, t, time) {
      EventsForOneMore(s.emitted, OffCpuEvent(t, s.offStart[t].start, time, s.offStart[t].stack, FreshWaker(s, t, time)), tid);
    }
  }

  lemma WakingProjected(cfg: Config, s: State, waker: U32, time: U64, user: seq<Addr>, wakee: U32, tid: U32)
    ensures Project(WakingStep(s, waker, time, user, wakee), tid)
         == if IsOwn(cfg, Waking(waker, time, user, wakee), tid)
            then ViewStep(cfg, Project(s, tid), Waking(waker, time, user, wakee), tid) else Project(s, tid)
  {
    hide EventsFor, WakingStep;
    WakingFields(s, waker, time, user, wakee);
    EventsForOneMore(s.emitted, WakeupEvent(wakee, waker, time), tid);
  }

  // -------------------------------------------------------------------------------- records

  lemma ObservedProjected(s: State, t: U32, user: seq<Addr>, tid: U32)
    ensures Project(Observed(s, t), tid) == if t == tid then Project(s, tid).(seen := true) else Project(s, tid)
    ensures Project(Observed(s, t).(switchStack := s.switchStack[t := user]), tid)
         == if t == tid then Project(s, tid).(seen := true, switchStack := Some(user)) else Project(s, tid)
  {
    hide EventsFor;
  }

  lemma CountersProjected(s: State, history: History, summary: Summary, tid: U32)
    ensures Project(s.(history := history), tid) == Project(s, tid)
    ensures Project(s.(summary := summary), tid) == Project(s, tid)
  {
  }

  lemma HandleProjected(cfg: Config, s: State, r: Rec, tid: U32)
    ensures Project(Handle(cfg, s, r), tid)
         == if IsOwn(cfg, r, tid) then ViewStep(cfg, Project(s, tid), r, tid) else Project(s, tid)
  {
    hide SampleStep, SwitchOutStep, SwitchInStep, WakingStep, Project, OnSample, OnSwitchIn, Observed;
    match r
    case Fork(pid, t) => ObservedProjected(s, t, [], tid);
    case SwitchSample(pid, t, user) => ObservedProjected(s, t, user, tid);
    case Sample(pid, t, time, user) => SampleProjected(cfg, s, t, time, user, tid);
    case SwitchOut(pid, t, time, preempted, site) => SwitchOutProjected(cfg, s, t, time, preempted, site, pid, tid);
    case SwitchIn(pid, t, time) => SwitchInProjected(s, t, time, tid);
    case Waking(waker, time, user, wakee) => WakingProjected(cfg, s, waker, time, user, wakee, tid);
    case Lost(count) =>
      CountersProjected(s, s.history, s.summary.(lostRecords := SatAdd(s.summary.lostRecords, count)), tid);
  }

  /** One record moves a thread's view if it is the thread's own, and else not at all. */
  lemma StepProjected(cfg: Config, s: State, r: Rec, tid: U32)
    ensures Project(Step(cfg, s, r), tid)
         == if IsOwn(cfg, r, tid) then ViewStep(cfg, Project(s, tid), r, tid) else Project(s, tid)
  {
    hide Handle, Project, ViewStep, IsOwn;
    HandleProjected(cfg, s, r, tid);
    var s' := Handle(cfg, s, r);
    CountersProjected(s', s'.history.(handled := s'.history.handled + 1), s'.summary, tid);
  }

  /** The session is its threads side by side: each one's view is its own machine on its own records. */
  lemma {:induction false} RunIsOwnRun(cfg: Config, recs: seq<Rec>, tid: U32)
    ensures Project(Run(cfg, recs), tid) == ViewRun(cfg, OwnRecords(cfg, recs, tid), tid)
  {
    if recs != [] {
      hide Step, ViewStep, Project, IsOwn;
      var front, r := recs[..|recs| - 1], recs[|recs| - 1];
      RunIsOwnRun(cfg, front, tid);
      StepProjected(cfg, Run(cfg, front), r, tid);
      var own := OwnRecords(cfg, front, tid);
      if IsOwn(cfg, r, tid) {
        assert (own + [r])[..|own|] == own;
      } else {
        assert own + [] == own;
      }
    } else {
      assert Project(START, tid) == UNSEEN;
    }
  }

  /** Whatever other threads do in between, a thread with the same records has the same events. */
  lemma ThreadsDoNotInterfere(cfg: Config, a: seq<Rec>, b: seq<Rec>, tid: U32)
    requires OwnRecords(cfg, a, tid) == OwnRecords(cfg, b, tid)
    ensures EventsFor(Run(cfg, a).emitted, tid) == EventsFor(Run(cfg, b).emitted, tid)
  {
    RunIsOwnRun(cfg, a, tid);
    RunIsOwnRun(cfg, b, tid);
  }
}
