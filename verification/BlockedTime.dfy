/**
 From switch records to blocked time. The session turns each absence into an off-CPU interval, the
 aggregator books it: together, every absence counts once, from its start to its end, on its own
 stack and for the reason that its leaf frame is classified as.
 */
module BlockedTime {
  import opened Numbers
  import opened Options
  import opened CallTrie
  import Agg = Aggregator
  import opened AggregatorLaws
  import opened Session
  import SessionLaws
  import opened EndToEnd
  import opened LogFigures

  // ------------------------------------------------------------------------ what the log holds

  predicate IsInterval(e: Event) {
    e.OnCpuEvent? || e.OffCpuEvent?
  }

  /** What the aggregator is told of an interval: a wakeup is named by its thread and its stack. */
  function Told(e: Event): Agg.RawInterval
    requires IsInterval(e)
  {
    match e
    case OnCpuEvent(_, start, end) => Agg.RawInterval(start, end, Agg.OnCpu)
    case OffCpuEvent(_, start, end, stack, None) => Agg.RawInterval(start, end, Agg.OffCpu(stack, None, None))
    case OffCpuEvent(_, start, end, stack, Some(waker)) =>
      Agg.RawInterval(start, end, Agg.OffCpu(stack, Some(waker.tid), Some(waker.user)))
  }

  function IntervalsIn(es: seq<Event>, tid: U32): seq<Agg.RawInterval> {
    if es == [] then []
    else
      var e := es[|es| - 1];
      IntervalsIn(es[..|es| - 1], tid) + if IsInterval(e) && e.tid == tid then [Told(e)] else []
  }

  /** With nothing evicted a thread's log holds the intervals that were sent for it, in order. */
  lemma {:induction false} IntervalsAreKept(es: seq<Event>, tid: U32)
    requires CountIntervals(es, tid) <= Agg.MAX_EVENTS_PER_THREAD
    ensures LogOf(es, tid).intervals == IntervalsIn(es, tid) && |IntervalsIn(es, tid)| == CountIntervals(es, tid)
  {
    if es != [] {
      var front, e := es[..|es| - 1], es[|es| - 1];
      IntervalsAreKept(front, tid);
      IntervalIsKept(LogOf(front, tid), e, tid);
    }
  }

  lemma IntervalIsKept(log: Agg.ThreadStats, e: Event, tid: U32)
    requires IsInterval(e) && e.tid == tid ==> |log.intervals| < Agg.MAX_EVENTS_PER_THREAD
    ensures LogEvent(log, e, tid).intervals == log.intervals + if IsInterval(e) && e.tid == tid then [Told(e)] else []
  {
  }

  // ------------------------------------------------------------------------ what the events add

  predicate OfBlocking(c: Counter) {
    c.OffCpuNs? || c.OffCpuIntervals?
  }

  /** An absence adds its time to the one reason, and one interval. */
  ghost function EventAdds(q: Agg.Query, e: Event, sel: Path -> bool, c: Counter): nat {
    if !e.OffCpuEvent? || e.end <= e.start then 0
    else if q.keepInterval(e.tid, Told(e)) && sel(Reverse(e.stack)) then BlockedAdds(q, e.stack, e.end - e.start, c)
    else 0
  }

  ghost function EventsAdd(q: Agg.Query, es: seq<Event>, tid: U32, sel: Path -> bool, c: Counter): nat {
    if es == [] then 0
    else
      var e := es[|es| - 1];
      EventsAdd(q, es[..|es| - 1], tid, sel, c) + if IsInterval(e) && e.tid == tid then EventAdds(q, e, sel, c) else 0
  }

  /** What the threads of `order` add together, those that are asked for. */
  ghost function SessionAdds(q: Agg.Query, es: seq<Event>, order: seq<U32>, sel: Path -> bool, c: Counter): nat {
    if order == [] then 0
    else
      var last := order[|order| - 1];
      SessionAdds(q, es, order[..|order| - 1], sel, c) + if Selected(q, last) then EventsAdd(q, es, last, sel, c) else 0
  }

  /** Intervals end after they start. */
  ghost predicate Proper(es: seq<Event>) {
    forall e :: e in es && IsInterval(e) ==> e.start < e.end
  }

  // ------------------------------------------------------------------------------ they are equal

  lemma TimeOfEvent(q: Agg.Query, tid: U32, now: U64, samples: seq<Agg.PetSample>, e: Event, sel: Path -> bool, c: Counter)
    requires OfBlocking(c) && IsInterval(e) && e.tid == tid && e.start < e.end
    ensures Adds(q, tid, now, samples, Told(e), sel, c) == if Selected(q, tid) then EventAdds(q, e, sel, c) else 0
  {
    if e.OnCpuEvent? {
      RunningAddsNothing(q, tid, samples, Told(e), e.end - e.start, sel, c);
      hide RunningAdds;
    }
  }

  lemma RunningAddsNothing(q: Agg.Query, tid: U32, samples: seq<Agg.PetSample>, iv: Agg.RawInterval, lasts: nat,
                           sel: Path -> bool, c: Counter)
    requires OfBlocking(c) && 0 < lasts && iv.startNs + lasts <= U64_MAX
    ensures RunningAdds(q, tid, samples, iv, lasts, sel, c) == 0
  {
    var inside := Inside(q, tid, samples, iv.startNs, iv.startNs + lasts, 0);
    if 0 < |inside| {
      NoSampleFigures(inside, lasts / |inside|, sel, c);
    }
  }

  lemma {:induction false} AddsOfPrefix(q: Agg.Query, tid: U32, now: U64, stats: Agg.ThreadStats, more: seq<Agg.RawInterval>,
                                        n: nat, sel: Path -> bool, c: Counter)
    requires n <= |stats.intervals|
    ensures ThreadAdds(q, tid, now, stats.(intervals := stats.intervals + more), n, sel, c)
         == ThreadAdds(q, tid, now, stats, n, sel, c)
  {
    hide Adds;
    if n > 0 {
      AddsOfPrefix(q, tid, now, stats, more, n - 1, sel, c);
    }
  }

  lemma {:induction false} TimeOfThread(q: Agg.Query, tid: U32, now: U64, samples: seq<Agg.PetSample>, es: seq<Event>,
                                        sel: Path -> bool, c: Counter)
    requires OfBlocking(c) && Proper(es)
    ensures ThreadAdds(q, tid, now, Agg.ThreadStats(samples, IntervalsIn(es, tid)), |IntervalsIn(es, tid)|, sel, c)
         == if Selected(q, tid) then EventsAdd(q, es, tid, sel, c) else 0
  {
    if es != [] {
      hide Adds, EventAdds;
      var front, e := es[..|es| - 1], es[|es| - 1];
      TimeOfThread(q, tid, now, samples, front, sel, c);
      if IsInterval(e) && e.tid == tid {
        var before := Agg.ThreadStats(samples, IntervalsIn(front, tid));
        AddsOfPrefix(q, tid, now, before, [Told(e)], |before.intervals|, sel, c);
        TimeOfEvent(q, tid, now, samples, e, sel, c);
      } else {
        assert IntervalsIn(es, tid) == IntervalsIn(front, tid);
      }
    }
  }

  ghost predicate NoIntervalEvicted(es: seq<Event>) {
    forall t :: CountIntervals(es, t) <= Agg.MAX_EVENTS_PER_THREAD
  }

  lemma {:induction false} LogAddsEvents(q: Agg.Query, now: U64, es: seq<Event>, threads: map<U32, Agg.ThreadStats>,
                                         order: seq<U32>, sel: Path -> bool, c: Counter)
    requires OfBlocking(c) && Proper(es) && NoIntervalEvicted(es)
    requires forall t :: t in order ==> t in threads && threads[t] == LogOf(es, t)
    ensures LogAdds(q, now, threads, order, sel, c) == SessionAdds(q, es, order, sel, c)
  {
    if order != [] {
      hide Proper, LogOf, ThreadAdds, EventsAdd, IntervalsIn;
      var front, last := order[..|order| - 1], order[|order| - 1];
      LogAddsEvents(q, now, es, threads, front, sel, c);
      IntervalsAreKept(es, last);
      TimeOfThread(q, last, now, threads[last].petSamples, es, sel, c);
    }
  }

  // --------------------------------------------------------------------------- the whole session

  /** What the session sends until it has closed its parked threads. */
  function Sent(cfg: Config, recs: seq<Rec>, parked: seq<U32>): seq<Event> {
    Flush(Run(cfg, recs), parked).emitted
  }

  lemma SentIsProper(cfg: Config, recs: seq<Rec>, parked: seq<U32>)
    ensures Proper(Sent(cfg, recs, parked))
  {
    hide Run, Flush;
    SessionLaws.RunLaws(cfg, recs);
    SessionLaws.FlushLaws(Run(cfg, recs), parked);
  }

  /**
   Records, teardown, log and query put together: at every node of the tree the blocked time of each
   reason is the sum over the absences whose stack passes through the node and whose leaf frame is
   classified as the reason, and as many intervals are counted.
   */
  lemma NodeFromSession(cfg: Config, recs: seq<Rec>, parked: seq<U32>, q: Agg.Query, now: U64,
                        threads: map<U32, Agg.ThreadStats>, order: seq<U32>, p: Path, c: Counter)
    requires OfBlocking(c) && p != [] && NoIntervalEvicted(Sent(cfg, recs, parked))
    requires forall t :: t in order ==> t in threads && threads[t] == LogOf(Sent(cfg, recs, parked), t)
    ensures Count(At(Build(Agg.WalkThreads(q, now, threads, order).credits), p), c)
         == Min(U64_MAX, SessionAdds(q, Sent(cfg, recs, parked), order, Under(p), c))
  {
    hide Sent, Proper, LogOf, NoIntervalEvicted, Agg.WalkThreads, Build, Count, At, LogAdds, SessionAdds, Under;
    SentIsProper(cfg, recs, parked);
    LogAddsEvents(q, now, Sent(cfg, recs, parked), threads, order, Under(p), c);
    NodeFromLog(q, now, threads, order, p, c);
  }

  /** The query over the whole session: each reason's total is the time of the absences it stands for. */
  method BlockedOfRun(cfg: Config, recs: seq<Rec>, parked: seq<U32>, q: Agg.Query)
    returns (agg: Agg.Aggregation, order: seq<U32>)
    requires NoIntervalEvicted(Sent(cfg, recs, parked))
    ensures fresh(agg) && agg.Valid()
    ensures forall r :: TotalOf(agg.totals, OffCpuNs(r))
              == Min(U64_MAX, SessionAdds(q, Sent(cfg, recs, parked), order, Everywhere(), OffCpuNs(r)))
    ensures forall t :: LogOf(Sent(cfg, recs, parked), t) != Agg.ThreadStats([], []) ==> t in order
    ensures forall i, j :: 0 <= i < j < |order| ==> order[i] != order[j]
  {
    hide LogOf, Sent, NoIntervalEvicted, Agg.Aggregation.Valid, LogAdds, SessionAdds, Everywhere, Agg.WalkThreads;
    var live := new Agg.Aggregator();
    Replay(live, Sent(cfg, recs, parked));
    agg, order := live.Aggregate(q);
    ghost var es, now, threads := Sent(cfg, recs, parked), Agg.Now(live.lastEventNs), live.threads;
    SentIsProper(cfg, recs, parked);
    forall t ensures Agg.Logged(threads, t) == LogOf(es, t) {
    }
    forall r ensures TotalOf(agg.totals, OffCpuNs(r)) == Min(U64_MAX, SessionAdds(q, es, order, Everywhere(), OffCpuNs(r))) {
      LogAddsEvents(q, now, es, threads, order, Everywhere(), OffCpuNs(r));
      PlainTotalFromLog(q, now, threads, order, OffCpuNs(r));
    }
  }
}
