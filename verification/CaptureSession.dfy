/** The capture session in place: its maps, counters and sink, updated record by record. */
module CaptureSession {
  import opened Numbers
  import opened Options
  import opened CallTrie
  import opened Session
  import opened SessionSteps

  class Capture {
    const cfg: Config
    var targetTids: set<U32>
    var lastSampleTs: map<U32, U64>
    var lastUserStack: map<U32, seq<Addr>>
    var switchStack: map<U32, seq<Addr>>
    var offStart: map<U32, Parked>
    var recentWaking: map<U32, RecentWaking>
    var lastTs: U64
    var summary: Summary
    var sink: seq<Event>
    ghost var history: History

    ghost function Now(): State
      reads this
    {
      State(targetTids, lastSampleTs, lastUserStack, switchStack, offStart, recentWaking, lastTs, summary, sink, history)
    }

    constructor (cfg: Config)
      ensures this.cfg == cfg && Now() == START
    {
      this.cfg := cfg;
      targetTids, lastSampleTs, lastUserStack, switchStack := {}, map[], map[], map[];
      offStart, recentWaking, lastTs, summary := map[], map[], 0, Summary(0, 0, 0, 0);
      sink, history := [], History(0, map[], map[], []);
    }

    method ObserveThread(pid: U32, tid: U32) returns (ours: bool)
      modifies `targetTids
      ensures ours == Observable(cfg, pid, tid)
      ensures Now() == if ours then Observed(old(Now()), tid) else old(Now())
    {
      if pid != cfg.pid || !ValidTid(tid) {
        return false;
      }
      targetTids := targetTids + {tid};
      return true;
    }

    /** The slice since the previous sample, if there is one, is closed; sample times only advance. */
    method CloseSlice(tid: U32, time: U64)
      modifies this
      ensures Now() == AdvanceSample(EmitSlice(cfg, old(Now()), tid, time), tid, time)
    {
      if tid in lastSampleTs {
        var prev := lastSampleTs[tid];
        if time > prev {
          var duration := Min(time - prev, cfg.maxOnCpuGapNs);
          if duration > 0 {
            sink := sink + [OnCpuEvent(tid, prev, prev + duration)];
            summary := summary.(intervals := SatAdd(summary.intervals, 1));
          }
        }
      }
      if tid !in lastSampleTs || time > lastSampleTs[tid] {
        lastSampleTs := lastSampleTs[tid := time];
      }
      lastTs := if time > lastTs then time else lastTs;
    }

    method OnSample(tid: U32, time: U64, user: seq<Addr>)
      requires tid in targetTids
      modifies this
      ensures Now() == SampleStep(cfg, old(Now()), tid, time, user)
    {
      hide EmitSlice, AdvanceSample;
      summary := summary.(samples := SatAdd(summary.samples, 1));
      sink := sink + [SampleEvent(tid, time, user)];
      assert Observed(old(Now()), tid) == old(Now());
      if time != 0 {
        CloseSlice(tid, time);
      }
      if user != [] {
        lastUserStack := lastUserStack[tid := user];
      }
    }

    method OnSwitchOut(tid: U32, time: U64, preempted: bool, waitSite: Option<Addr>)
      requires tid in targetTids
      modifies this
      ensures Now() == SwitchOutStep(old(Now()), tid, time, preempted, waitSite)
    {
      assert Observed(old(Now()), tid) == old(Now());
      lastTs := if time > lastTs then time else lastTs;
      if preempted {
        switchStack := switchStack - {tid};
        return;
      }
      var parked := if tid in switchStack then switchStack[tid]
                    else if tid in lastUserStack then lastUserStack[tid] else [];
      switchStack := switchStack - {tid};
      var stack := if waitSite.Some? then [waitSite.value] + parked else parked;
      offStart := offStart[tid := Parked(time, stack)];
      history := history.(outAt := history.outAt[tid := history.handled]);
    }

    /** The pending wakeup is removed, and credited if it is recent. */
    method TakeWaker(tid: U32, time: U64) returns (waker: Option<Waker>)
      modifies `recentWaking, `history
      ensures waker == FreshWaker(old(Now()), tid, time)
      ensures recentWaking == old(recentWaking) - {tid} && history == old(history).(wakeAt := old(history).wakeAt - {tid})
    {
      waker := None;
      if tid in recentWaking && SatSub(time, recentWaking[tid].time) <= WAKING_STALENESS_NS {
        waker := Some(Waker(recentWaking[tid].wakerTid, recentWaking[tid].user));
      }
      recentWaking := recentWaking - {tid};
      history := history.(wakeAt := history.wakeAt - {tid});
    }

    /** The interval that ends now, with its waker if there is a recent one; `out` is where it began. */
    method CloseSpan(tid: U32, time: U64, parked: Parked, ghost out: History)
      modifies `recentWaking, `sink, `summary, `history
      ensures var s, waker := old(Now()), FreshWaker(old(Now()), tid, time);
              Now() == s.(recentWaking := s.recentWaking - {tid},
                          emitted := s.emitted + [OffCpuEvent(tid, parked.start, time, parked.stack, waker)],
                          summary := s.summary.(offCpuIntervals := SatAdd(s.summary.offCpuIntervals, 1)),
                          history := s.history.(wakeAt := s.history.wakeAt - {tid},
                            origins := s.history.origins + [OriginOf(out, tid, waker, Some(out.handled))]))
    {
      hide FreshWaker, OriginOf;
      var waker := TakeWaker(tid, time);
      sink := sink + [OffCpuEvent(tid, parked.start, time, parked.stack, waker)];
      summary := summary.(offCpuIntervals := SatAdd(summary.offCpuIntervals, 1));
      history := history.(origins := history.origins + [OriginOf(out, tid, waker, Some(out.handled))]);
    }

    method OnSwitchIn(tid: U32, time: U64)
      requires tid in targetTids
      modifies this
      ensures Now() == SwitchInStep(old(Now()), tid, time)
    {
      ghost var s := Now();
      assert s.targetTids + {tid} == s.targetTids;
      hide SwitchInStep, OriginOf, FreshWaker, Later, Now;
      var parked := Unpark(tid, time);
      if parked.Some? && time > parked.value.start {
        ClosingFields(s, tid, time);
        SameWaker(Now(), s, tid, time);
        CloseSpan(tid, time, parked.value, s.history);
      } else {
        NotClosingFields(s, tid, time);
      }
    }

    /** The thread is seen again; what it was parked with, if it was. */
    method Unpark(tid: U32, time: U64) returns (parked: Option<Parked>)
      modifies `lastTs, `offStart, `history
      ensures var s := old(Now());
              && parked == (if tid in s.offStart then Some(s.offStart[tid]) else None)
              && Now() == s.(lastTs := Later(s.lastTs, time), offStart := s.offStart - {tid},
                             history := if tid in s.offStart then s.history.(outAt := s.history.outAt - {tid}) else s.history)
    {
      lastTs := if time > lastTs then time else lastTs;
      if tid !in offStart {
        assert offStart - {tid} == offStart;
        return None;
      }
      parked := Some(offStart[tid]);
      offStart := offStart - {tid};
      history := history.(outAt := history.outAt - {tid});
    }

    method OnWaking(wakerTid: U32, time: U64, user: seq<Addr>, wakee: U32)
      modifies this
      ensures Now() == WakingStep(old(Now()), wakerTid, time, user, wakee)
    {
      if !ValidTid(wakee) || wakee !in targetTids || wakerTid > I32_MAX {
        return;
      }
      lastTs := if time > lastTs then time else lastTs;
      sink := sink + [WakeupEvent(wakee, wakerTid, time)];
      recentWaking := recentWaking[wakee := RecentWaking(wakerTid, user, time)];
      history := history.(wakeAt := history.wakeAt[wakee := history.handled]);
    }

    /** One decoded record, by kind. */
    method Dispatch(r: Rec)
      modifies this
      ensures Now() == Handle(cfg, old(Now()), r)
    {
      hide SampleStep, SwitchOutStep, SwitchInStep, WakingStep;
      match r {
        case Fork(pid, tid) =>
          var _ := ObserveThread(pid, tid);
        case SwitchSample(pid, tid, user) =>
          var ours := ObserveThread(pid, tid);
          if ours && user != [] {
            switchStack := switchStack[tid := user];
          }
        case Sample(pid, tid, time, user) =>
          var ours := ObserveThread(pid, tid);
          if ours {
            OnSample(tid, time, user);
            ObservedTwice(cfg, old(Now()), tid);
          }
        case SwitchOut(pid, tid, time, preempted, waitSite) =>
          var ours := ObserveThread(pid, tid);
          if ours {
            OnSwitchOut(tid, time, preempted, waitSite);
            ObservedTwice(cfg, old(Now()), tid);
          }
        case SwitchIn(pid, tid, time) =>
          var ours := ObserveThread(pid, tid);
          if ours {
            OnSwitchIn(tid, time);
            ObservedTwice(cfg, old(Now()), tid);
          }
        case Waking(wakerTid, time, user, wakee) =>
          OnWaking(wakerTid, time, user, wakee);
        case Lost(count) =>
          summary := summary.(lostRecords := SatAdd(summary.lostRecords, count));
      }
    }

    method Process(r: Rec)
      modifies this
      ensures Now() == Step(cfg, old(Now()), r)
    {
      hide Handle;
      Dispatch(r);
      history := history.(handled := history.handled + 1);
    }

    method FlushThread(tid: U32)
      requires tid in offStart
      modifies this
      ensures Now() == FlushOne(old(Now()), tid)
      ensures offStart == old(offStart) - {tid}
    {
      var parked := offStart[tid];
      ghost var h := history;
      offStart := offStart - {tid};
      history := history.(outAt := history.outAt - {tid});
      if lastTs > parked.start {
        sink := sink + [OffCpuEvent(tid, parked.start, lastTs, parked.stack, None)];
        summary := summary.(offCpuIntervals := SatAdd(summary.offCpuIntervals, 1));
        history := history.(origins := history.origins + [OriginOf(h, tid, None, None)]);
      }
    }

    /** Teardown: close out the threads still parked. */
    method FlushOffCpu() returns (order: seq<U32>)
      modifies this
      ensures (forall t :: t in order <==> t in old(offStart)) && offStart == map[]
      ensures Now() == Flush(old(Now()), order)
    {
      hide FlushOne;
      order := [];
      var todo := offStart.Keys;
      while todo != {}
        invariant todo == offStart.Keys
        invariant forall t :: t in order <==> t in old(offStart) && t !in todo
        invariant todo <= old(offStart).Keys && Now() == Flush(old(Now()), order)
        decreases |todo|
      {
        var tid :| tid in todo;
        todo := todo - {tid};
        FlushThread(tid);
        assert (order + [tid])[..|order|] == order;
        order := order + [tid];
      }
    }
  }

  lemma SameWaker(s: State, s': State, tid: U32, time: U64)
    requires s'.recentWaking == s.recentWaking
    ensures FreshWaker(s', tid, time) == FreshWaker(s, tid, time)
  {
  }

  /** Observing a thread again changes nothing. */
  lemma ObservedTwice(cfg: Config, s: State, tid: U32)
    ensures forall time, user :: SampleStep(cfg, Observed(s, tid), tid, time, user) == SampleStep(cfg, s, tid, time, user)
    ensures forall time, p, w :: SwitchOutStep(Observed(s, tid), tid, time, p, w) == SwitchOutStep(s, tid, time, p, w)
    ensures forall time :: SwitchInStep(Observed(s, tid), tid, time) == SwitchInStep(s, tid, time)
  {
    assert Observed(Observed(s, tid), tid) == Observed(s, tid);
  }
}
