/**
 The capture session: decoded perf records in, profiler events out. Samples of a thread
 close on-CPU intervals; voluntary switch-outs and the switch-ins after them become off-CPU
 intervals, credited to a recent wakeup if there was one. `Step` is one record;
 `CaptureSession` performs it in place.
 */
module Session {
  import opened Numbers
  import opened Options
  import opened CallTrie

  const WAKING_STALENESS_NS: U64 := 100_000_000
  const I32_MAX: int := 0x7FFF_FFFF

  /**
   A perf record of one of the kinds that matter here, already decoded. A thread that was there when
   the session attached and is found in /proc stands as a leading `Fork`: it is observed the same way.
   */
  datatype Rec =
    | Fork(pid: U32, tid: U32)
    | SwitchSample(pid: U32, tid: U32, user: seq<Addr>)
    | Sample(pid: U32, tid: U32, time: U64, user: seq<Addr>)
    | SwitchOut(pid: U32, tid: U32, time: U64, preempted: bool, waitSite: Option<Addr>)
    | SwitchIn(pid: U32, tid: U32, time: U64)
    | Waking(wakerTid: U32, time: U64, user: seq<Addr>, wakee: U32)
    | Lost(count: U64)

  datatype Parked = Parked(start: U64, stack: seq<Addr>)
  datatype RecentWaking = RecentWaking(wakerTid: U32, user: seq<Addr>, time: U64)
  datatype Waker = Waker(tid: U32, user: seq<Addr>)

  /** What the sink is given. */
  datatype Event =
    | SampleEvent(tid: U32, time: U64, user: seq<Addr>)
    | OnCpuEvent(tid: U32, start: U64, end: U64)
    | OffCpuEvent(tid: U32, start: U64, end: U64, stack: seq<Addr>, waker: Option<Waker>)
    | WakeupEvent(wakee: U32, wakerTid: U32, time: U64)

  datatype Summary = Summary(samples: U64, lostRecords: U64, intervals: U64, offCpuIntervals: U64)

  datatype Config = Config(pid: U32, maxOnCpuGapNs: U64)

  /**
   The session's fields, the events emitted so far and some history: the number of records
   handled, and which record each parked thread, pending wakeup and off-CPU event came from.
   */
  datatype State = State(
    targetTids: set<U32>,
    lastSampleTs: map<U32, U64>,
    lastUserStack: map<U32, seq<Addr>>,
    switchStack: map<U32, seq<Addr>>,
    offStart: map<U32, Parked>,
    recentWaking: map<U32, RecentWaking>,
    lastTs: U64,
    summary: Summary,
    emitted: seq<Event>,
    history: History)

  datatype History = History(handled: nat, outAt: map<U32, nat>, wakeAt: map<U32, nat>, origins: seq<Origin>)

  /** The records an off-CPU event was made from; at teardown no record closes it. */
  datatype Origin = Origin(out: nat, wake: Option<nat>, back: Option<nat>)

  const START := State({}, map[], map[], map[], map[], map[], 0, Summary(0, 0, 0, 0), [], History(0, map[], map[], []))

  function ValidTid(tid: U32): bool {
    tid != 0 && tid <= I32_MAX
  }

  function Observable(cfg: Config, pid: U32, tid: U32): bool {
    pid == cfg.pid && ValidTid(tid)
  }

  function Later(lastTs: U64, time: U64): U64 {
    if time > lastTs then time else lastTs
  }

  function Observed(s: State, tid: U32): State {
    s.(targetTids := s.targetTids + {tid})
  }

  /** The slice a new sample closes: from the previous sample, capped. */
  function ClosedSlice(cfg: Config, s: State, tid: U32, time: U64): Option<(U64, U64)> {
    if tid in s.lastSampleTs && time > s.lastSampleTs[tid] then
      var prev := s.lastSampleTs[tid];
      var duration := Min(time - prev, cfg.maxOnCpuGapNs);
      if duration > 0 then Some((prev, prev + duration)) else None
    else None
  }

  function Emit(s: State, e: Event): State {
    s.(emitted := s.emitted + [e])
  }

  function EmitSample(s: State, tid: U32, time: U64, user: seq<Addr>): State {
    Emit(s, SampleEvent(tid, time, user)).(summary := s.summary.(samples := SatAdd(s.summary.samples, 1)))
  }

  function EmitSlice(cfg: Config, s: State, tid: U32, time: U64): State {
    var slice := ClosedSlice(cfg, s, tid, time);
    if slice.None? then s
    else
      Emit(s, OnCpuEvent(tid, slice.value.0, slice.value.1)).(
        summary := s.summary.(intervals := SatAdd(s.summary.intervals, 1)))
  }

  /** A thread's last sample time only moves forward. */
  function AdvanceSample(s: State, tid: U32, time: U64): State {
    s.(lastSampleTs := if tid !in s.lastSampleTs || time > s.lastSampleTs[tid]
                       then s.lastSampleTs[tid := time] else s.lastSampleTs,
       lastTs := Later(s.lastTs, time))
  }

  function RememberStack(s: State, tid: U32, user: seq<Addr>): State {
    if user == [] then s else s.(lastUserStack := s.lastUserStack[tid := user])
  }

  function SampleStep(cfg: Config, s: State, tid: U32, time: U64, user: seq<Addr>): State {
    var s1 := EmitSample(Observed(s, tid), tid, time, user);
    var s2 := if time == 0 then s1 else AdvanceSample(EmitSlice(cfg, s1, tid, time), tid, time);
    RememberStack(s2, tid, user)
  }

  /** Wait site first, then the stack the thread blocked in, else its last sampled one. */
  function ParkedStack(s: State, tid: U32, waitSite: Option<Addr>): seq<Addr> {
    var user := if tid in s.switchStack then s.switchStack[tid]
                else if tid in s.lastUserStack then s.lastUserStack[tid] else [];
    match waitSite
    case Some(site) => [site] + user
    case None => user
  }

  function SwitchOutStep(s0: State, tid: U32, time: U64, preempted: bool, waitSite: Option<Addr>): State {
    var s := Observed(s0, tid).(lastTs := Later(s0.lastTs, time));
    if preempted then s.(switchStack := s.switchStack - {tid})
    else
      s.(switchStack := s.switchStack - {tid},
         offStart := s.offStart[tid := Parked(time, ParkedStack(s, tid, waitSite))],
         history := s.history.(outAt := s.history.outAt[tid := s.history.handled]))
  }

  function FreshWaker(s: State, tid: U32, time: U64): Option<Waker> {
    if tid in s.recentWaking && SatSub(time, s.recentWaking[tid].time) <= WAKING_STALENESS_NS
    then Some(Waker(s.recentWaking[tid].wakerTid, s.recentWaking[tid].user)) else None
  }

  function OriginOf(h: History, tid: U32, waker: Option<Waker>, back: Option<nat>): Origin {
    Origin(if tid in h.outAt then h.outAt[tid] else 0,
           if waker.Some? && tid in h.wakeAt then Some(h.wakeAt[tid]) else None, back)
  }

  function Unpark(s: State, tid: U32): State {
    s.(offStart := s.offStart - {tid}, history := s.history.(outAt := s.history.outAt - {tid}))
  }

  function EmitOffCpu(s: State, e: Event, origin: Origin): State {
    Emit(s, e).(summary := s.summary.(offCpuIntervals := SatAdd(s.summary.offCpuIntervals, 1)),
                history := s.history.(origins := s.history.origins + [origin]))
  }

  function TakeWaking(s: State, tid: U32): State {
    s.(recentWaking := s.recentWaking - {tid}, history := s.history.(wakeAt := s.history.wakeAt - {tid}))
  }

  function SwitchInStep(s0: State, tid: U32, time: U64): State {
    var s := Observed(s0, tid).(lastTs := Later(s0.lastTs, time));
    if tid !in s.offStart then s
    else if time <= s.offStart[tid].start then Unpark(s, tid)
    else
      var parked, waker := s.offStart[tid], FreshWaker(s, tid, time);
      EmitOffCpu(TakeWaking(Unpark(s, tid), tid),
                 OffCpuEvent(tid, parked.start, time, parked.stack, waker),
                 OriginOf(s.history, tid, waker, Some(s.history.handled)))
  }

  function WakingStep(s: State, wakerTid: U32, time: U64, user: seq<Addr>, wakee: U32): State {
    if !ValidTid(wakee) || wakee !in s.targetTids || wakerTid > I32_MAX then s
    else
      s.(lastTs := Later(s.lastTs, time),
         emitted := s.emitted + [WakeupEvent(wakee, wakerTid, time)],
         recentWaking := s.recentWaking[wakee := RecentWaking(wakerTid, user, time)],
         history := s.history.(wakeAt := s.history.wakeAt[wakee := s.history.handled]))
  }

  function Handle(cfg: Config, s: State, r: Rec): State {
    match r
    case Fork(pid, tid) => if Observable(cfg, pid, tid) then Observed(s, tid) else s
    case SwitchSample(pid, tid, user) =>
      if !Observable(cfg, pid, tid) then s
      else if user == [] then Observed(s, tid)
      else Observed(s, tid).(switchStack := s.switchStack[tid := user])
    case Sample(pid, tid, time, user) => if Observable(cfg, pid, tid) then SampleStep(cfg, s, tid, time, user) else s
    case SwitchOut(pid, tid, time, preempted, waitSite) =>
      if Observable(cfg, pid, tid) then SwitchOutStep(s, tid, time, preempted, waitSite) else s
    case SwitchIn(pid, tid, time) => if Observable(cfg, pid, tid) then SwitchInStep(s, tid, time) else s
    case Waking(wakerTid, time, user, wakee) => WakingStep(s, wakerTid, time, user, wakee)
    case Lost(count) => s.(summary := s.summary.(lostRecords := SatAdd(s.summary.lostRecords, count)))
  }

  function Step(cfg: Config, s: State, r: Rec): State {
    var s' := Handle(cfg, s, r);
    s'.(history := s'.history.(handled := s'.history.handled + 1))
  }

  function Run(cfg: Config, recs: seq<Rec>): State {
    if recs == [] then START else Step(cfg, Run(cfg, recs[..|recs| - 1]), recs[|recs| - 1])
  }

  /** Teardown: a thread that is still parked gets an interval up to the newest timestamp. */
  function FlushOne(s: State, tid: U32): State
    requires tid in s.offStart
  {
    var parked := s.offStart[tid];
    if s.lastTs <= parked.start then Unpark(s, tid)
    else
      EmitOffCpu(Unpark(s, tid), OffCpuEvent(tid, parked.start, s.lastTs, parked.stack, None),
                 OriginOf(s.history, tid, None, None))
  }

  /** The parked threads are visited in the hash map's order, whatever it is. */
  function Flush(s: State, order: seq<U32>): State {
    if order == [] then s
    else
      var s1 := Flush(s, order[..|order| - 1]);
      var tid := order[|order| - 1];
      if tid in s1.offStart then FlushOne(s1, tid) else s1
  }
}
