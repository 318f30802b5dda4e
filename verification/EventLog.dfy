/**
 The aggregator's log over a whole run of record calls: a thread keeps its newest events in order,
 and the first and the newest timestamp are those of the events.
 */
module EventLog {
  import opened Numbers
  import opened Options
  import opened A = Aggregator

  datatype Call = SampleCall(tid: U32, sample: PetSample) | IntervalCall(tid: U32, interval: RawInterval)

  // ------------------------------------------------------------------------- what the calls brought

  /** All samples that were recorded for a thread, in order. */
  function SamplesFor(calls: seq<Call>, tid: U32): seq<PetSample> {
    if calls == [] then []
    else
      var last := calls[|calls| - 1];
      SamplesFor(calls[..|calls| - 1], tid) + if last.SampleCall? && last.tid == tid then [last.sample] else []
  }

  function IntervalsFor(calls: seq<Call>, tid: U32): seq<RawInterval> {
    if calls == [] then []
    else
      var last := calls[|calls| - 1];
      IntervalsFor(calls[..|calls| - 1], tid) + if last.IntervalCall? && last.tid == tid then [last.interval] else []
  }

  /** The timestamps of the events, in order; zero is none, and an open interval has no end. */
  function TimesOf(calls: seq<Call>): seq<U64> {
    if calls == [] then []
    else
      var last := calls[|calls| - 1];
      TimesOf(calls[..|calls| - 1])
      + match last
        case SampleCall(_, s) => NonZero(s.timestampNs)
        case IntervalCall(_, iv) => NonZero(iv.startNs) + NonZero(iv.endNs)
  }

  function NonZero(ts: U64): seq<U64> {
    if ts == 0 then [] else [ts]
  }

  /** The newest 100,000 elements, in order. */
  function Newest<T>(s: seq<T>): seq<T> {
    if |s| <= 100_000 then s else s[|s| - 100_000..]
  }

  ghost predicate IsGreatest(times: seq<U64>, t: U64) {
    t in times && forall u :: u in times ==> u <= t
  }

  ghost predicate CameFor(calls: seq<Call>, tid: U32) {
    exists c :: c in calls && c.tid == tid
  }

  /** Exactly the threads that events came for, each with its newest events. */
  ghost predicate ThreadsHold(threads: map<U32, ThreadStats>, calls: seq<Call>) {
    && (forall t :: t in threads <==> CameFor(calls, t))
    && (forall t :: t in threads ==>
          threads[t] == ThreadStats(Newest(SamplesFor(calls, t)), Newest(IntervalsFor(calls, t))))
  }

  /** The first and the greatest timestamp, if there is any. */
  ghost predicate TimesHold(first: Option<U64>, latest: Option<U64>, times: seq<U64>) {
    && (match first
        case None => times == []
        case Some(ts) => times != [] && ts == times[0])
    && (match latest
        case None => times == []
        case Some(ts) => IsGreatest(times, ts))
  }

  // ---------------------------------------------------------------------------------- one call more

  lemma PushedIsNewest<T>(all: seq<T>, e: T)
    ensures Pushed(Newest(all), e) == Newest(all + [e])
  {
  }

  lemma CallsSnoc(calls: seq<Call>, c: Call)
    ensures var more := calls + [c];
            && (forall t :: SamplesFor(more, t) == SamplesFor(calls, t) + if c.SampleCall? && c.tid == t then [c.sample] else [])
            && (forall t :: IntervalsFor(more, t)
                            == IntervalsFor(calls, t) + if c.IntervalCall? && c.tid == t then [c.interval] else [])
            && (forall t :: CameFor(more, t) <==> CameFor(calls, t) || c.tid == t)
  {
    var more := calls + [c];
    assert more[..|calls|] == calls;
    assert c in more && forall d :: d in more <==> d in calls || d == c;
  }

  lemma TimesSnoc(calls: seq<Call>, c: Call)
    ensures TimesOf(calls + [c])
         == TimesOf(calls)
            + match c
              case SampleCall(_, s) => NonZero(s.timestampNs)
              case IntervalCall(_, iv) => NonZero(iv.startNs) + NonZero(iv.endNs)
  {
    assert (calls + [c])[..|calls|] == calls;
  }

  lemma {:induction false} NothingFor(calls: seq<Call>, tid: U32)
    requires forall c :: c in calls ==> c.tid != tid
    ensures SamplesFor(calls, tid) == [] && IntervalsFor(calls, tid) == []
  {
    if calls != [] { NothingFor(calls[..|calls| - 1], tid); }
  }

  lemma LoggedIs(threads: map<U32, ThreadStats>, calls: seq<Call>, tid: U32)
    requires ThreadsHold(threads, calls)
    ensures Logged(threads, tid) == ThreadStats(Newest(SamplesFor(calls, tid)), Newest(IntervalsFor(calls, tid)))
  {
    hide SamplesFor, IntervalsFor, Newest;
    if tid !in threads {
      NothingFor(calls, tid);
      assert Newest<PetSample>([]) == [] && Newest<RawInterval>([]) == [] by { NewestOfNone<PetSample>(); NewestOfNone<RawInterval>(); }
    }
  }

  lemma NewestOfNone<T>()
    ensures Newest<T>([]) == []
  {
  }

  lemma SampleKeepsThreads(threads: map<U32, ThreadStats>, calls: seq<Call>, tid: U32, s: PetSample)
    requires ThreadsHold(threads, calls)
    ensures var log := Logged(threads, tid);
            ThreadsHold(threads[tid := log.(petSamples := Pushed(log.petSamples, s))], calls + [SampleCall(tid, s)])
  {
    hide SamplesFor, IntervalsFor, Newest, Pushed;
    LoggedIs(threads, calls, tid);
    CallsSnoc(calls, SampleCall(tid, s));
    PushedIsNewest(SamplesFor(calls, tid), s);
    assert forall t :: IntervalsFor(calls, t) + [] == IntervalsFor(calls, t) && SamplesFor(calls, t) + [] == SamplesFor(calls, t);
  }

  lemma IntervalKeepsThreads(threads: map<U32, ThreadStats>, calls: seq<Call>, tid: U32, iv: RawInterval)
    requires ThreadsHold(threads, calls)
    ensures var log := Logged(threads, tid);
            ThreadsHold(threads[tid := log.(intervals := Pushed(log.intervals, iv))], calls + [IntervalCall(tid, iv)])
  {
    hide SamplesFor, IntervalsFor, Newest, Pushed;
    LoggedIs(threads, calls, tid);
    CallsSnoc(calls, IntervalCall(tid, iv));
    PushedIsNewest(IntervalsFor(calls, tid), iv);
    assert forall t :: IntervalsFor(calls, t) + [] == IntervalsFor(calls, t) && SamplesFor(calls, t) + [] == SamplesFor(calls, t);
  }

  lemma NotedKeepsTimes(first: Option<U64>, latest: Option<U64>, times: seq<U64>, ts: U64)
    requires TimesHold(first, latest, times)
    ensures TimesHold(FirstOf(first, ts), LatestOf(latest, ts), times + NonZero(ts))
  {
    if ts == 0 { assert times + [] == times; }
  }

  // ------------------------------------------------------------------------------------ every run

  /**
   After any calls, the aggregator knows exactly the threads that events came for, holds the newest
   100,000 samples and intervals of each in order, and the first and the greatest of all timestamps.
   */
  method Record(live: A.Aggregator, calls: seq<Call>)
    requires live.threads == map[] && live.sessionStartNs == None && live.lastEventNs == None
    modifies live
    ensures ThreadsHold(live.threads, calls) && TimesHold(live.sessionStartNs, live.lastEventNs, TimesOf(calls))
  {
    hide ThreadsHold, TimesHold, TimesOf, NonZero, Pushed, FirstOf, LatestOf;
    assert ThreadsHold(map[], []) && TimesHold(None, None, TimesOf([])) by { NothingHeld(); }
    var i := 0;
    while i < |calls|
      invariant i <= |calls| && ThreadsHold(live.threads, calls[..i])
      invariant TimesHold(live.sessionStartNs, live.lastEventNs, TimesOf(calls[..i]))
    {
      ghost var done, times := calls[..i], TimesOf(calls[..i]);
      ghost var first, latest := live.sessionStartNs, live.lastEventNs;
      match calls[i] {
        case SampleCall(tid, s) =>
          SampleKeepsThreads(live.threads, done, tid, s);
          NotedKeepsTimes(first, latest, times, s.timestampNs);
          live.RecordPetSample(tid, s);
        case IntervalCall(tid, iv) =>
          IntervalKeepsThreads(live.threads, done, tid, iv);
          NotedKeepsTimes(first, latest, times, iv.startNs);
          NotedKeepsTimes(FirstOf(first, iv.startNs), LatestOf(latest, iv.startNs), times + NonZero(iv.startNs), iv.endNs);
          assert times + NonZero(iv.startNs) + NonZero(iv.endNs) == times + (NonZero(iv.startNs) + NonZero(iv.endNs));
          live.RecordInterval(tid, iv);
      }
      TimesSnoc(done, calls[i]);
      assert calls[..i + 1] == done + [calls[i]];
      i := i + 1;
    }
    assert calls[..i] == calls;
  }

  lemma NothingHeld()
    ensures ThreadsHold(map[], []) && TimesHold(None, None, TimesOf([]))
  {
  }
}
