/**
 Where the session's off-CPU intervals, credited wakeups and target threads come from: each one
 stands in the records of the run, each return that the records show is there, and no record is
 used for two intervals.
 */
module SessionRecords {
  import opened Numbers
  import opened Options
  import opened CallTrie
  import opened Session
  import opened SessionSteps
  import opened SessionLaws
  import opened SessionThreads

  function TimeOf(r: Rec): U64 {
    if r.Sample? || r.SwitchOut? || r.SwitchIn? || r.Waking? then r.time else 0
  }

  /** A record that shows a thread of the target to be there. */
  predicate Shows(cfg: Config, r: Rec, tid: U32) {
    !r.Waking? && IsOwn(cfg, r, tid)
  }

  /** The thread goes to sleep by its own will. */
  predicate Parks(cfg: Config, r: Rec, tid: U32) {
    r.SwitchOut? && !r.preempted && Shows(cfg, r, tid)
  }

  predicate Returns(cfg: Config, r: Rec, tid: U32) {
    r.SwitchIn? && Shows(cfg, r, tid)
  }

  predicate Wakes(r: Rec, tid: U32) {
    r.Waking? && r.wakee == tid && r.wakerTid < 0x8000_0000
  }

  // ------------------------------------------------ what the first `n` records say of a thread

  ghost predicate Known(cfg: Config, recs: seq<Rec>, n: nat, tid: U32)
    requires n <= |recs|
  {
    exists k :: 0 <= k < n && Shows(cfg, recs[k], tid)
  }

  /** Record `k` is the thread's last voluntary switch-out, with no return after it. */
  ghost predicate NewestOut(cfg: Config, recs: seq<Rec>, n: nat, k: nat, tid: U32) {
    && k < n <= |recs| && Parks(cfg, recs[k], tid)
    && forall j :: k < j < n ==> !Parks(cfg, recs[j], tid) && !Returns(cfg, recs[j], tid)
  }

  /** With record `b` the thread returns from an absence of some length. */
  ghost predicate Comeback(cfg: Config, recs: seq<Rec>, b: nat, tid: U32) {
    && b < |recs| && Returns(cfg, recs[b], tid)
    && exists k: nat :: NewestOut(cfg, recs, b, k, tid) && TimeOf(recs[k]) < TimeOf(recs[b])
  }

  /** Record `w` is the thread's last wakeup, came when the thread was known, and no comeback has used it up. */
  ghost predicate PendingWaking(cfg: Config, recs: seq<Rec>, n: nat, w: nat, tid: U32) {
    && w < n <= |recs| && Wakes(recs[w], tid) && Known(cfg, recs, w, tid)
    && forall j :: w < j < n ==> !Wakes(recs[j], tid) && !Comeback(cfg, recs, j, tid)
  }

  predicate FreshAt(recs: seq<Rec>, b: nat, w: nat)
    requires b < |recs| && w < |recs|
  {
    SatSub(TimeOf(recs[b]), TimeOf(recs[w])) <= WAKING_STALENESS_NS
  }

  // ------------------------------------------------------------------- where an interval is from

  /** A waker is named exactly if a wakeup is pending when the thread returns and still fresh; it is that one's. */
  ghost predicate WakerIs(cfg: Config, recs: seq<Rec>, b: nat, tid: U32, waker: Option<Waker>, wake: Option<nat>)
    requires b < |recs|
  {
    match wake
    case Some(w) =>
      && PendingWaking(cfg, recs, b, w, tid) && FreshAt(recs, b, w)
      && waker == Some(Waker(recs[w].wakerTid, recs[w].user))
    case None => waker == None && forall w: nat :: PendingWaking(cfg, recs, b, w, tid) ==> !FreshAt(recs, b, w)
  }

  /**
   The interval begins at the time of the thread's newest voluntary switch-out and ends at that of
   the switch-in after it, or, for a thread that never came back, at the time of teardown.
   */
  ghost predicate ComesFrom(cfg: Config, recs: seq<Rec>, e: Event, o: Origin, teardown: Option<U64>) {
    && e.OffCpuEvent? && e.start < e.end
    && match o.back
       case Some(b) =>
         && b < |recs| && Returns(cfg, recs[b], e.tid) && TimeOf(recs[b]) == e.end
         && NewestOut(cfg, recs, b, o.out, e.tid) && TimeOf(recs[o.out]) == e.start
         && WakerIs(cfg, recs, b, e.tid, e.waker, o.wake)
       case None =>
         && teardown == Some(e.end) && NewestOut(cfg, recs, |recs|, o.out, e.tid) && TimeOf(recs[o.out]) == e.start
         && e.waker == None && o.wake == None
  }

  function OffCpuEvents(es: seq<Event>): seq<Event> {
    if es == [] then []
    else OffCpuEvents(es[..|es| - 1]) + if es[|es| - 1].OffCpuEvent? then [es[|es| - 1]] else []
  }

  lemma OffCpuEventsSnoc(es: seq<Event>, e: Event)
    ensures OffCpuEvents(es + [e]) == OffCpuEvents(es) + if e.OffCpuEvent? then [e] else []
  {
    assert (es + [e])[..|es + [e]| - 1] == es;
  }

  /** Every off-CPU event stands in the records; the switch-ins that close them ascend. */
  ghost predicate EventsFrom(cfg: Config, recs: seq<Rec>, off: seq<Event>, os: seq<Origin>, teardown: Option<U64>) {
    && |off| == |os|
    && (forall i :: 0 <= i < |off| ==> ComesFrom(cfg, recs, off[i], os[i], teardown))
    && (forall i, j :: 0 <= i < j < |os| && os[j].back.Some? ==> os[i].back.Some? && os[i].back.value < os[j].back.value)
  }

  /** Every comeback in the records has its event. */
  ghost predicate AllComebacks(cfg: Config, recs: seq<Rec>, os: seq<Origin>) {
    forall b: nat, tid :: Comeback(cfg, recs, b, tid) ==> exists i :: 0 <= i < |os| && os[i].back == Some(b)
  }

  // ----------------------------------------------------------------------------- one record more

  lemma KnownLonger(cfg: Config, recs: seq<Rec>, r: Rec, n: nat, tid: U32)
    requires n <= |recs|
    ensures Known(cfg, recs + [r], n, tid) <==> Known(cfg, recs, n, tid)
    ensures Known(cfg, recs + [r], |recs| + 1, tid) <==> Known(cfg, recs, |recs|, tid) || Shows(cfg, r, tid)
  {
    hide Shows;
    var more := recs + [r];
    assert more[|recs|] == r && forall k :: 0 <= k < |recs| ==> more[k] == recs[k];
    if Known(cfg, recs, |recs|, tid) {
      var k :| 0 <= k < |recs| && Shows(cfg, recs[k], tid);
      assert Shows(cfg, more[k], tid);
    }
  }

  lemma OutLonger(cfg: Config, recs: seq<Rec>, r: Rec, n: nat, k: nat, tid: U32)
    requires n <= |recs|
    ensures NewestOut(cfg, recs + [r], n, k, tid) <==> NewestOut(cfg, recs, n, k, tid)
  {
    hide Parks, Returns;
    var more := recs + [r];
    assert forall k :: 0 <= k < |recs| ==> more[k] == recs[k];
  }

  lemma OutNext(cfg: Config, recs: seq<Rec>, r: Rec, k: nat, tid: U32)
    ensures NewestOut(cfg, recs + [r], |recs| + 1, k, tid)
       <==> || (k == |recs| && Parks(cfg, r, tid))
            || (NewestOut(cfg, recs, |recs|, k, tid) && !Parks(cfg, r, tid) && !Returns(cfg, r, tid))
  {
    hide Parks, Returns;
    var more := recs + [r];
    assert more[|recs|] == r && forall k :: 0 <= k < |recs| ==> more[k] == recs[k];
  }

  lemma ComebackLonger(cfg: Config, recs: seq<Rec>, r: Rec, b: nat, tid: U32)
    requires b < |recs|
    ensures Comeback(cfg, recs + [r], b, tid) <==> Comeback(cfg, recs, b, tid)
  {
    hide NewestOut, Returns, TimeOf;
    var more := recs + [r];
    assert more[b] == recs[b];
    forall k: nat ensures NewestOut(cfg, more, b, k, tid) <==> NewestOut(cfg, recs, b, k, tid) {
      OutLonger(cfg, recs, r, b, k, tid);
    }
    assert forall k: nat :: NewestOut(cfg, recs, b, k, tid) ==> k < b by { OutsBelow(cfg, recs, b, tid); }
    assert forall k :: 0 <= k < b ==> more[k] == recs[k];
  }

  lemma OutsBelow(cfg: Config, recs: seq<Rec>, n: nat, tid: U32)
    ensures forall k: nat :: NewestOut(cfg, recs, n, k, tid) ==> k < n <= |recs|
  {
  }

  lemma WakingLonger(cfg: Config, recs: seq<Rec>, r: Rec, n: nat, w: nat, tid: U32)
    requires n <= |recs|
    ensures PendingWaking(cfg, recs + [r], n, w, tid) <==> PendingWaking(cfg, recs, n, w, tid)
  {
    hide Wakes, Known, Comeback;
    var more := recs + [r];
    assert forall k :: 0 <= k < |recs| ==> more[k] == recs[k];
    if w < n {
      KnownLonger(cfg, recs, r, w, tid);
    }
    forall j | w < j < n ensures Comeback(cfg, more, j, tid) <==> Comeback(cfg, recs, j, tid) {
      ComebackLonger(cfg, recs, r, j, tid);
    }
  }

  lemma WakingNext(cfg: Config, recs: seq<Rec>, r: Rec, w: nat, tid: U32)
    ensures PendingWaking(cfg, recs + [r], |recs| + 1, w, tid)
       <==> || (w == |recs| && Wakes(r, tid) && Known(cfg, recs, |recs|, tid))
            || (PendingWaking(cfg, recs, |recs|, w, tid) && !Wakes(r, tid) && !Comeback(cfg, recs + [r], |recs|, tid))
  {
    hide Wakes, Known, Comeback;
    var more := recs + [r];
    assert more[|recs|] == r && forall k :: 0 <= k < |recs| ==> more[k] == recs[k];
    if w == |recs| {
      KnownLonger(cfg, recs, r, w, tid);
    } else if w < |recs| {
      WakingLonger(cfg, recs, r, |recs|, w, tid);
    }
  }

  lemma WakerLonger(cfg: Config, recs: seq<Rec>, r: Rec, b: nat, tid: U32, waker: Option<Waker>, wake: Option<nat>)
    requires b < |recs| && WakerIs(cfg, recs, b, tid, waker, wake)
    ensures WakerIs(cfg, recs + [r], b, tid, waker, wake)
  {
    hide PendingWaking, TimeOf;
    var more := recs + [r];
    assert forall k :: 0 <= k < |recs| ==> more[k] == recs[k];
    forall w: nat ensures PendingWaking(cfg, more, b, w, tid) <==> PendingWaking(cfg, recs, b, w, tid) {
      WakingLonger(cfg, recs, r, b, w, tid);
    }
    WakingsBelow(cfg, recs, b, tid);
  }

  lemma WakingsBelow(cfg: Config, recs: seq<Rec>, n: nat, tid: U32)
    ensures forall w: nat :: PendingWaking(cfg, recs, n, w, tid) ==> w < n <= |recs| && recs[w].Waking?
  {
  }

  lemma ComesFromLonger(cfg: Config, recs: seq<Rec>, r: Rec, e: Event, o: Origin)
    requires ComesFrom(cfg, recs, e, o, None)
    ensures ComesFrom(cfg, recs + [r], e, o, None)
  {
    hide NewestOut, WakerIs, Returns, TimeOf;
    var b := o.back.value;
    assert (recs + [r])[b] == recs[b];
    OutsBelow(cfg, recs, b, e.tid);
    OutLonger(cfg, recs, r, b, o.out, e.tid);
    assert (recs + [r])[o.out] == recs[o.out];
    WakerLonger(cfg, recs, r, b, e.tid, e.waker, o.wake);
  }

  lemma EventsFromLonger(cfg: Config, recs: seq<Rec>, r: Rec, off: seq<Event>, os: seq<Origin>)
    requires EventsFrom(cfg, recs, off, os, None)
    ensures EventsFrom(cfg, recs + [r], off, os, None)
    ensures forall i :: 0 <= i < |os| ==> os[i].back.Some? && os[i].back.value < |recs|
  {
    forall i | 0 <= i < |off|
      ensures ComesFrom(cfg, recs + [r], off[i], os[i], None) && os[i].back.Some? && os[i].back.value < |recs|
    {
      assert ComesFrom(cfg, recs, off[i], os[i], None);
      ComesFromLonger(cfg, recs, r, off[i], os[i]);
    }
    hide ComesFrom;
  }

  /** A record that is no comeback adds no event. */
  lemma NoEventMore(cfg: Config, recs: seq<Rec>, off: seq<Event>, os: seq<Origin>, r: Rec)
    requires EventsFrom(cfg, recs, off, os, None) && AllComebacks(cfg, recs, os)
    requires forall t :: !Comeback(cfg, recs + [r], |recs|, t)
    ensures EventsFrom(cfg, recs + [r], off, os, None) && AllComebacks(cfg, recs + [r], os)
  {
    EventsFromLonger(cfg, recs, r, off, os);
    hide EventsFrom, Comeback;
    forall b: nat, tid | Comeback(cfg, recs + [r], b, tid) ensures exists i :: 0 <= i < |os| && os[i].back == Some(b) {
      ComebacksBelow(cfg, recs + [r], b, tid);
      if b < |recs| { ComebackLonger(cfg, recs, r, b, tid); }
    }
  }

  lemma ComebacksBelow(cfg: Config, recs: seq<Rec>, b: nat, tid: U32)
    requires Comeback(cfg, recs, b, tid)
    ensures b < |recs|
  {
  }

  /** A comeback adds its event, after all those before. */
  lemma OneEventMore(cfg: Config, recs: seq<Rec>, off: seq<Event>, os: seq<Origin>, r: Rec, e: Event, o: Origin)
    requires EventsFrom(cfg, recs, off, os, None) && AllComebacks(cfg, recs, os)
    requires ComesFrom(cfg, recs + [r], e, o, None) && o.back == Some(|recs|)
    ensures EventsFrom(cfg, recs + [r], off + [e], os + [o], None) && AllComebacks(cfg, recs + [r], os + [o])
  {
    EventsFromLonger(cfg, recs, r, off, os);
    hide ComesFrom, Comeback;
    forall b: nat, tid | Comeback(cfg, recs + [r], b, tid)
      ensures exists i :: 0 <= i < |os + [o]| && (os + [o])[i].back == Some(b)
    {
      ComebacksBelow(cfg, recs + [r], b, tid);
      if b < |recs| {
        ComebackLonger(cfg, recs, r, b, tid);
        var i :| 0 <= i < |os| && os[i].back == Some(b);
        assert (os + [o])[i] == os[i];
      } else {
        assert (os + [o])[|os|] == o;
      }
    }
  }

  // --------------------------------------------------------------------- what the session keeps

  /** The threads parked are those the records show to be away, each since its newest switch-out. */
  ghost predicate OutsFrom(cfg: Config, recs: seq<Rec>, outAt: map<U32, nat>, offStart: map<U32, Parked>) {
    && outAt.Keys == offStart.Keys
    && (forall t :: t in outAt ==> NewestOut(cfg, recs, |recs|, outAt[t], t) && TimeOf(recs[outAt[t]]) == offStart[t].start)
    && (forall t, k: nat :: NewestOut(cfg, recs, |recs|, k, t) ==> t in outAt)
  }

  /** The wakeup kept is the one of record `w`. */
  predicate KeptFrom(recs: seq<Rec>, w: nat, kept: RecentWaking) {
    w < |recs| && recs[w].Waking? && kept == RecentWaking(recs[w].wakerTid, recs[w].user, recs[w].time)
  }

  /** The wakeups kept are those the records show to be pending. */
  ghost predicate WakesFrom(cfg: Config, recs: seq<Rec>, wakeAt: map<U32, nat>, recentWaking: map<U32, RecentWaking>) {
    && wakeAt.Keys == recentWaking.Keys
    && (forall t :: t in wakeAt ==>
          PendingWaking(cfg, recs, |recs|, wakeAt[t], t) && KeptFrom(recs, wakeAt[t], recentWaking[t]))
    && (forall t, w: nat :: PendingWaking(cfg, recs, |recs|, w, t) ==> t in wakeAt)
  }

  lemma NewestIsOne(cfg: Config, recs: seq<Rec>, n: nat, k: nat, l: nat, tid: U32)
    requires NewestOut(cfg, recs, n, k, tid) && NewestOut(cfg, recs, n, l, tid)
    ensures k == l
  {
    hide Parks, Returns;
  }

  lemma PendingIsOne(cfg: Config, recs: seq<Rec>, n: nat, v: nat, w: nat, tid: U32)
    requires PendingWaking(cfg, recs, n, v, tid) && PendingWaking(cfg, recs, n, w, tid)
    ensures v == w
  {
    hide Wakes, Known, Comeback;
  }

  /** The record is a comeback exactly if the session has the thread parked for some time. */
  lemma ComebackNow(cfg: Config, recs: seq<Rec>, r: Rec, outAt: map<U32, nat>, offStart: map<U32, Parked>, tid: U32)
    requires OutsFrom(cfg, recs, outAt, offStart)
    ensures Comeback(cfg, recs + [r], |recs|, tid)
       <==> Returns(cfg, r, tid) && tid in offStart && offStart[tid].start < TimeOf(r)
  {
    hide NewestOut, Returns, TimeOf;
    var more := recs + [r];
    assert more[|recs|] == r;
    OutsBelow(cfg, recs, |recs|, tid);
    forall k: nat ensures NewestOut(cfg, more, |recs|, k, tid) <==> NewestOut(cfg, recs, |recs|, k, tid) {
      OutLonger(cfg, recs, r, |recs|, k, tid);
    }
    forall k: nat | NewestOut(cfg, recs, |recs|, k, tid) ensures tid in outAt && k == outAt[tid] && more[k] == recs[k] {
      NewestIsOne(cfg, recs, |recs|, k, outAt[tid], tid);
    }
    if tid in outAt {
      assert NewestOut(cfg, more, |recs|, outAt[tid], tid);
    }
  }

  /** Parking, returning, or staying as it was: a thread's switch-out after one more record. */
  lemma OutsFromNext(cfg: Config, recs: seq<Rec>, r: Rec, outAt: map<U32, nat>, offStart: map<U32, Parked>,
                     outAt': map<U32, nat>, offStart': map<U32, Parked>)
    requires OutsFrom(cfg, recs, outAt, offStart) && outAt'.Keys == offStart'.Keys
    requires forall t :: t in outAt' <==> Parks(cfg, r, t) || (t in outAt && !Returns(cfg, r, t))
    requires forall t :: t in outAt' ==>
               if Parks(cfg, r, t) then outAt'[t] == |recs| && offStart'[t].start == TimeOf(r)
               else outAt'[t] == outAt[t] && offStart'[t] == offStart[t]
    ensures OutsFrom(cfg, recs + [r], outAt', offStart')
  {
    hide NewestOut, Parks, Returns, TimeOf;
    var more := recs + [r];
    assert more[|recs|] == r;
    forall t, k: nat ensures NewestOut(cfg, more, |more|, k, t)
                   <==> || (k == |recs| && Parks(cfg, r, t))
                        || (NewestOut(cfg, recs, |recs|, k, t) && !Parks(cfg, r, t) && !Returns(cfg, r, t))
    {
      OutNext(cfg, recs, r, k, t);
    }
    forall t | t in outAt ensures outAt[t] < |recs| {
      OutsBelow(cfg, recs, |recs|, t);
    }
    assert |more| == |recs| + 1 && forall k :: 0 <= k < |recs| ==> more[k] == recs[k];
  }

  lemma KeptLonger(recs: seq<Rec>, r: Rec, w: nat, kept: RecentWaking)
    ensures KeptFrom(recs, w, kept) ==> KeptFrom(recs + [r], w, kept)
    ensures r.Waking? ==> KeptFrom(recs + [r], |recs|, RecentWaking(r.wakerTid, r.user, r.time))
  {
  }

  /** A new wakeup of a known thread, or the old one if no comeback uses it up. */
  lemma WakesFromNext(cfg: Config, recs: seq<Rec>, r: Rec, wakeAt: map<U32, nat>, recentWaking: map<U32, RecentWaking>,
                      wakeAt': map<U32, nat>, recentWaking': map<U32, RecentWaking>)
    requires WakesFrom(cfg, recs, wakeAt, recentWaking) && wakeAt'.Keys == recentWaking'.Keys
    requires forall t :: t in wakeAt' <==>
               || (Wakes(r, t) && Known(cfg, recs, |recs|, t))
               || (t in wakeAt && !Wakes(r, t) && !Comeback(cfg, recs + [r], |recs|, t))
    requires forall t :: t in wakeAt' ==>
               if Wakes(r, t) then r.Waking? && wakeAt'[t] == |recs| && recentWaking'[t] == RecentWaking(r.wakerTid, r.user, r.time)
               else wakeAt'[t] == wakeAt[t] && recentWaking'[t] == recentWaking[t]
    ensures WakesFrom(cfg, recs + [r], wakeAt', recentWaking')
  {
    hide PendingWaking, Wakes, Known, Comeback, KeptFrom;
    var more := recs + [r];
    forall t | t in wakeAt'
      ensures PendingWaking(cfg, more, |more|, wakeAt'[t], t) && KeptFrom(more, wakeAt'[t], recentWaking'[t])
    {
      WakingNext(cfg, recs, r, wakeAt'[t], t);
      KeptLonger(recs, r, wakeAt'[t], recentWaking'[t]);
    }
    forall t, w: nat | PendingWaking(cfg, more, |more|, w, t) ensures t in wakeAt' {
      WakingNext(cfg, recs, r, w, t);
    }
  }

  // ------------------------------------------------------------------------------ each step

  ghost predicate TargetsFrom(cfg: Config, recs: seq<Rec>, targets: set<U32>) {
    forall t :: t in targets <==> Known(cfg, recs, |recs|, t)
  }

  /** All that the session has kept and emitted stands in the records. */
  ghost predicate Linked(cfg: Config, recs: seq<Rec>, s: State) {
    && s.history.handled == |recs| && TargetsFrom(cfg, recs, s.targetTids)
    && OutsFrom(cfg, recs, s.history.outAt, s.offStart) && WakesFrom(cfg, recs, s.history.wakeAt, s.recentWaking)
    && EventsFrom(cfg, recs, OffCpuEvents(s.emitted), s.history.origins, None) && AllComebacks(cfg, recs, s.history.origins)
  }

  lemma TargetsNext(cfg: Config, recs: seq<Rec>, r: Rec, targets: set<U32>, targets': set<U32>)
    requires TargetsFrom(cfg, recs, targets) && forall t :: t in targets' <==> t in targets || Shows(cfg, r, t)
    ensures TargetsFrom(cfg, recs + [r], targets')
  {
    hide Known, Shows;
    forall t ensures t in targets' <==> Known(cfg, recs + [r], |recs + [r]|, t) {
      KnownLonger(cfg, recs, r, |recs|, t);
    }
  }

  /** A record by which no thread parks, returns or is woken leaves all pending things and intervals. */
  lemma QuietLinked(cfg: Config, recs: seq<Rec>, r: Rec, s: State, s': State)
    requires Linked(cfg, recs, s) && forall t :: t in s'.targetTids <==> t in s.targetTids || Shows(cfg, r, t)
    requires s'.history == s.history.(handled := |recs| + 1) && s'.offStart == s.offStart
    requires s'.recentWaking == s.recentWaking && OffCpuEvents(s'.emitted) == OffCpuEvents(s.emitted)
    requires forall t :: !Parks(cfg, r, t) && !Returns(cfg, r, t) && (Wakes(r, t) ==> t !in s.targetTids)
    ensures Linked(cfg, recs + [r], s')
  {
    hide Comeback, Known, Shows, Parks, Returns, Wakes, NewestOut, PendingWaking, KeptFrom, EventsFrom, AllComebacks, OffCpuEvents;
    var h := s.history;
    TargetsNext(cfg, recs, r, s.targetTids, s'.targetTids);
    forall t ensures !Comeback(cfg, recs + [r], |recs|, t) {
      ComebackNow(cfg, recs, r, h.outAt, s.offStart, t);
    }
    OutsFromNext(cfg, recs, r, h.outAt, s.offStart, h.outAt, s.offStart);
    WakesFromQuiet(cfg, recs, r, s);
    NoEventMore(cfg, recs, OffCpuEvents(s.emitted), h.origins, r);
  }

  lemma KeptIsKnown(cfg: Config, recs: seq<Rec>, s: State, tid: U32)
    requires WakesFrom(cfg, recs, s.history.wakeAt, s.recentWaking) && TargetsFrom(cfg, recs, s.targetTids)
    requires tid in s.recentWaking
    ensures tid in s.targetTids
  {
    hide Wakes, Comeback, KeptFrom, Shows;
    assert PendingWaking(cfg, recs, |recs|, s.history.wakeAt[tid], tid);
    var k :| 0 <= k < s.history.wakeAt[tid] && Shows(cfg, recs[k], tid);
    assert Known(cfg, recs, |recs|, tid);
  }

  lemma WakesFromQuiet(cfg: Config, recs: seq<Rec>, r: Rec, s: State)
    requires WakesFrom(cfg, recs, s.history.wakeAt, s.recentWaking) && TargetsFrom(cfg, recs, s.targetTids)
    requires forall t :: (Wakes(r, t) ==> t !in s.targetTids) && !Comeback(cfg, recs + [r], |recs|, t)
    ensures WakesFrom(cfg, recs + [r], s.history.wakeAt, s.recentWaking)
  {
    hide Comeback, Known, Wakes, PendingWaking, KeptFrom;
    var h := s.history;
    forall t | t in h.wakeAt ensures !Wakes(r, t) {
      KeptIsKnown(cfg, recs, s, t);
    }
    WakesFromNext(cfg, recs, r, h.wakeAt, s.recentWaking, h.wakeAt, s.recentWaking);
  }

  lemma SampleOffCpuEvents(cfg: Config, s: State, tid: U32, time: U64, user: seq<Addr>)
    ensures OffCpuEvents(s.emitted + SampleEvents(cfg, s, tid, time, user)) == OffCpuEvents(s.emitted)
  {
    hide OffCpuEvents, SliceOf;
    var es := SampleEvents(cfg, s, tid, time, user);
    OffCpuEventsSnoc(s.emitted, es[0]);
    if |es| == 2 {
      OffCpuEventsSnoc(s.emitted + [es[0]], es[1]);
      assert s.emitted + es == s.emitted + [es[0]] + [es[1]];
    } else {
      assert es == [es[0]];
    }
  }

  lemma SampleIsQuiet(cfg: Config, s: State, tid: U32, time: U64, user: seq<Addr>)
    ensures var s' := SampleStep(cfg, s, tid, time, user);
            && s'.targetTids == s.targetTids + {tid} && s'.offStart == s.offStart && s'.recentWaking == s.recentWaking
            && s'.history == s.history && OffCpuEvents(s'.emitted) == OffCpuEvents(s.emitted)
  {
    hide SampleStep, SampleEvents, OffCpuEvents, SliceOf, LaterOf;
    SampleFields(cfg, s, tid, time, user);
    SampleOffCpuEvents(cfg, s, tid, time, user);
  }

  lemma SampleShows(cfg: Config, r: Rec, tid: U32)
    requires r.Sample? && ValidTid(tid) && r.pid == cfg.pid && r.tid == tid
    ensures forall t :: !Parks(cfg, r, t) && !Returns(cfg, r, t) && !Wakes(r, t) && (Shows(cfg, r, t) <==> t == tid)
  {
  }

  lemma SampleLinked(cfg: Config, recs: seq<Rec>, s: State, r: Rec, tid: U32, time: U64, user: seq<Addr>)
    requires Linked(cfg, recs, s) && ValidTid(tid) && r == Sample(cfg.pid, tid, time, user)
    ensures Linked(cfg, recs + [r], Counted(SampleStep(cfg, s, tid, time, user)))
  {
    assert s.history.handled == |recs|;
    SampleShows(cfg, r, tid);
    hide SampleStep, OffCpuEvents, Linked, Parks, Returns, Wakes, Shows;
    SampleIsQuiet(cfg, s, tid, time, user);
    QuietLinked(cfg, recs, r, s, Counted(SampleStep(cfg, s, tid, time, user)));
  }

  lemma OutShows(cfg: Config, r: Rec, tid: U32)
    requires r.SwitchOut? && ValidTid(tid) && r.pid == cfg.pid && r.tid == tid
    ensures forall t :: !Returns(cfg, r, t) && !Wakes(r, t) && (Shows(cfg, r, t) <==> t == tid)
    ensures forall t :: Parks(cfg, r, t) <==> t == tid && !r.preempted
    ensures TimeOf(r) == r.time
  {
  }

  lemma ParkLinked(cfg: Config, recs: seq<Rec>, s: State, r: Rec, tid: U32, time: U64, site: Option<Addr>, parked: Parked)
    requires Linked(cfg, recs, s) && ValidTid(tid) && r == SwitchOut(cfg.pid, tid, time, false, site) && parked.start == time
    ensures OutsFrom(cfg, recs + [r], s.history.outAt[tid := |recs|], s.offStart[tid := parked])
    ensures forall t :: !Comeback(cfg, recs + [r], |recs|, t)
  {
    OutShows(cfg, r, tid);
    hide Comeback, Known, NewestOut, Shows, Parks, Returns, Wakes, TimeOf;
    hide TargetsFrom, WakesFrom, EventsFrom, AllComebacks, OffCpuEvents;
    var h := s.history;
    forall t ensures !Comeback(cfg, recs + [r], |recs|, t) {
      ComebackNow(cfg, recs, r, h.outAt, s.offStart, t);
    }
    OutsFromNext(cfg, recs, r, h.outAt, s.offStart, h.outAt[tid := |recs|], s.offStart[tid := parked]);
  }

  lemma SwitchOutLinked(cfg: Config, recs: seq<Rec>, s: State, r: Rec, tid: U32, time: U64, preempted: bool, site: Option<Addr>)
    requires Linked(cfg, recs, s) && ValidTid(tid) && r == SwitchOut(cfg.pid, tid, time, preempted, site)
    ensures Linked(cfg, recs + [r], Counted(SwitchOutStep(s, tid, time, preempted, site)))
  {
    OutShows(cfg, r, tid);
    SwitchOutFields(s, tid, time, preempted, site);
    var s' := Counted(SwitchOutStep(s, tid, time, preempted, site));
    assert s.history.handled == |recs|;
    hide SwitchOutStep, ParkedStack, OffCpuEvents, Shows, Parks, Returns, Wakes, TimeOf;
    if preempted {
      hide Linked;
      QuietLinked(cfg, recs, r, s, s');
    } else {
      ParkLinked(cfg, recs, s, r, tid, time, site, s'.offStart[tid]);
      hide Comeback, OutsFrom, EventsFrom, AllComebacks;
      TargetsNext(cfg, recs, r, s.targetTids, s'.targetTids);
      WakesFromQuiet(cfg, recs, r, s);
      hide TargetsFrom, WakesFrom;
      NoEventMore(cfg, recs, OffCpuEvents(s.emitted), s.history.origins, r);
    }
  }

  /** The interval that a switch-in closes stands in the records, with the wakeup it is credited to. */
  lemma ReturnComesFrom(cfg: Config, recs: seq<Rec>, s: State, r: Rec, tid: U32, time: U64)
    requires Linked(cfg, recs, s) && ValidTid(tid) && r == SwitchIn(cfg.pid, tid, time) && Closes(s, tid, time)
    ensures var waker := FreshWaker(s, tid, time);
            ComesFrom(cfg, recs + [r], OffCpuEvent(tid, s.offStart[tid].start, time, s.offStart[tid].stack, waker),
                      OriginOf(s.history, tid, waker, Some(|recs|)), None)
  {
    var more, h, waker := recs + [r], s.history, FreshWaker(s, tid, time);
    assert more[|recs|] == r && NewestOut(cfg, recs, |recs|, h.outAt[tid], tid);
    OutLonger(cfg, recs, r, |recs|, h.outAt[tid], tid);
    OutsBelow(cfg, recs, |recs|, tid);
    assert more[h.outAt[tid]] == recs[h.outAt[tid]];
    ReturnWaker(cfg, recs, s, r, tid, time);
    hide NewestOut, WakerIs, FreshWaker, Linked;
  }

  lemma ReturnWaker(cfg: Config, recs: seq<Rec>, s: State, r: Rec, tid: U32, time: U64)
    requires WakesFrom(cfg, recs, s.history.wakeAt, s.recentWaking) && r == SwitchIn(cfg.pid, tid, time)
    ensures var waker := FreshWaker(s, tid, time);
            WakerIs(cfg, recs + [r], |recs|, tid, waker, OriginOf(s.history, tid, waker, Some(|recs|)).wake)
  {
    hide PendingWaking;
    var more, h := recs + [r], s.history;
    assert more[|recs|] == r && forall k :: 0 <= k < |recs| ==> more[k] == recs[k];
    forall w: nat ensures PendingWaking(cfg, more, |recs|, w, tid) <==> PendingWaking(cfg, recs, |recs|, w, tid) {
      WakingLonger(cfg, recs, r, |recs|, w, tid);
    }
    WakingsBelow(cfg, recs, |recs|, tid);
    forall w: nat | PendingWaking(cfg, recs, |recs|, w, tid) ensures tid in h.wakeAt && w == h.wakeAt[tid] {
      PendingIsOne(cfg, recs, |recs|, w, h.wakeAt[tid], tid);
    }
  }

  lemma ReturnsOne(cfg: Config, r: Rec, tid: U32, time: U64)
    requires ValidTid(tid) && r == SwitchIn(cfg.pid, tid, time)
    ensures forall t :: !Parks(cfg, r, t) && !Wakes(r, t) && (Returns(cfg, r, t) <==> t == tid) && (Shows(cfg, r, t) <==> t == tid)
    ensures TimeOf(r) == time
  {
  }

  /** What stays pending when a thread returns: its own switch-out not. */
  lemma ReturnOuts(cfg: Config, recs: seq<Rec>, s: State, r: Rec, tid: U32, time: U64)
    requires Linked(cfg, recs, s) && ValidTid(tid) && r == SwitchIn(cfg.pid, tid, time)
    ensures OutsFrom(cfg, recs + [r], s.history.outAt - {tid}, s.offStart - {tid})
    ensures forall t :: Comeback(cfg, recs + [r], |recs|, t) <==> t == tid && Closes(s, tid, time)
  {
    ReturnsOne(cfg, r, tid, time);
    hide TargetsFrom, WakesFrom, EventsFrom, AllComebacks, OffCpuEvents;
    hide Comeback, Known, Shows, Parks, Returns, Wakes, TimeOf, NewestOut, PendingWaking, KeptFrom;
    var h := s.history;
    forall t ensures Comeback(cfg, recs + [r], |recs|, t) <==> t == tid && Closes(s, tid, time) {
      ComebackNow(cfg, recs, r, h.outAt, s.offStart, t);
    }
    OutsFromNext(cfg, recs, r, h.outAt, s.offStart, h.outAt - {tid}, s.offStart - {tid});
  }

  /** Its wakeup only if the thread was not away. */
  lemma ReturnWakes(cfg: Config, recs: seq<Rec>, s: State, r: Rec, tid: U32, time: U64)
    requires WakesFrom(cfg, recs, s.history.wakeAt, s.recentWaking) && ValidTid(tid) && r == SwitchIn(cfg.pid, tid, time)
    requires forall t :: Comeback(cfg, recs + [r], |recs|, t) <==> t == tid && Closes(s, tid, time)
    ensures if Closes(s, tid, time) then WakesFrom(cfg, recs + [r], s.history.wakeAt - {tid}, s.recentWaking - {tid})
            else WakesFrom(cfg, recs + [r], s.history.wakeAt, s.recentWaking)
  {
    ReturnsOne(cfg, r, tid, time);
    hide Closes, Comeback, Known, Shows, Parks, Returns, Wakes, TimeOf, PendingWaking, KeptFrom;
    var h := s.history;
    if Closes(s, tid, time) {
      WakesFromNext(cfg, recs, r, h.wakeAt, s.recentWaking, h.wakeAt - {tid}, s.recentWaking - {tid});
    } else {
      WakesFromNext(cfg, recs, r, h.wakeAt, s.recentWaking, h.wakeAt, s.recentWaking);
    }
  }

  lemma ClosingLinked(cfg: Config, recs: seq<Rec>, s: State, r: Rec, tid: U32, time: U64)
    requires Linked(cfg, recs, s) && ValidTid(tid) && r == SwitchIn(cfg.pid, tid, time) && Closes(s, tid, time)
    ensures Linked(cfg, recs + [r], Counted(SwitchInStep(s, tid, time)))
  {
    var waker := FreshWaker(s, tid, time);
    var e := OffCpuEvent(tid, s.offStart[tid].start, time, s.offStart[tid].stack, waker);
    var o := OriginOf(s.history, tid, waker, Some(|recs|));
    assert o.back == Some(|recs|);
    ClosingFields(s, tid, time);
    ReturnComesFrom(cfg, recs, s, r, tid, time);
    ReturnOuts(cfg, recs, s, r, tid, time);
    ReturnWakes(cfg, recs, s, r, tid, time);
    ReturnsOne(cfg, r, tid, time);
    hide SwitchInStep, FreshWaker, OriginOf, ComesFrom, OffCpuEvents, EventsFrom, AllComebacks, OutsFrom, WakesFrom;
    hide Comeback, Known, Shows, Parks, Returns, Wakes, TimeOf;
    TargetsNext(cfg, recs, r, s.targetTids, s.targetTids + {tid});
    hide TargetsFrom;
    OffCpuEventsSnoc(s.emitted, e);
    OneEventMore(cfg, recs, OffCpuEvents(s.emitted), s.history.origins, r, e, o);
  }

  lemma NotClosingLinked(cfg: Config, recs: seq<Rec>, s: State, r: Rec, tid: U32, time: U64)
    requires Linked(cfg, recs, s) && ValidTid(tid) && r == SwitchIn(cfg.pid, tid, time) && !Closes(s, tid, time)
    ensures Linked(cfg, recs + [r], Counted(SwitchInStep(s, tid, time)))
  {
    NotClosingFields(s, tid, time);
    ReturnOuts(cfg, recs, s, r, tid, time);
    ReturnWakes(cfg, recs, s, r, tid, time);
    ReturnsOne(cfg, r, tid, time);
    assert tid !in s.offStart ==> s.history.outAt - {tid} == s.history.outAt;
    hide SwitchInStep, OffCpuEvents, EventsFrom, AllComebacks, OutsFrom, WakesFrom;
    hide Comeback, Known, Shows, Parks, Returns, Wakes, TimeOf;
    TargetsNext(cfg, recs, r, s.targetTids, s.targetTids + {tid});
    hide TargetsFrom;
    NoEventMore(cfg, recs, OffCpuEvents(s.emitted), s.history.origins, r);
  }

  lemma SwitchInLinked(cfg: Config, recs: seq<Rec>, s: State, r: Rec, tid: U32, time: U64)
    requires Linked(cfg, recs, s) && ValidTid(tid) && r == SwitchIn(cfg.pid, tid, time)
    ensures Linked(cfg, recs + [r], Counted(SwitchInStep(s, tid, time)))
  {
    hide Linked, SwitchInStep;
    if Closes(s, tid, time) {
      ClosingLinked(cfg, recs, s, r, tid, time);
    } else {
      NotClosingLinked(cfg, recs, s, r, tid, time);
    }
  }

  lemma WakesOne(cfg: Config, r: Rec, waker: U32, time: U64, user: seq<Addr>, wakee: U32)
    requires r == Waking(waker, time, user, wakee)
    ensures forall t :: !Parks(cfg, r, t) && !Returns(cfg, r, t) && !Shows(cfg, r, t)
    ensures forall t :: Wakes(r, t) <==> t == wakee && waker <= I32_MAX
  {
  }

  lemma CountingWakes(cfg: Config, recs: seq<Rec>, s: State, r: Rec, waker: U32, time: U64, user: seq<Addr>, wakee: U32)
    requires WakesFrom(cfg, recs, s.history.wakeAt, s.recentWaking) && TargetsFrom(cfg, recs, s.targetTids)
    requires WakingCounts(s, waker, wakee) && r == Waking(waker, time, user, wakee)
    requires forall t :: !Comeback(cfg, recs + [r], |recs|, t)
    ensures WakesFrom(cfg, recs + [r], s.history.wakeAt[wakee := |recs|], s.recentWaking[wakee := RecentWaking(waker, user, time)])
  {
    WakesOne(cfg, r, waker, time, user, wakee);
    hide Comeback, Known, Shows, Parks, Returns, Wakes, PendingWaking, KeptFrom;
    WakesFromNext(cfg, recs, r, s.history.wakeAt, s.recentWaking, s.history.wakeAt[wakee := |recs|],
                  s.recentWaking[wakee := RecentWaking(waker, user, time)]);
  }

  lemma CountingLinked(cfg: Config, recs: seq<Rec>, s: State, r: Rec, waker: U32, time: U64, user: seq<Addr>, wakee: U32)
    requires Linked(cfg, recs, s) && WakingCounts(s, waker, wakee) && r == Waking(waker, time, user, wakee)
    ensures Linked(cfg, recs + [r], Counted(WakingStep(s, waker, time, user, wakee)))
  {
    WakingFields(s, waker, time, user, wakee);
    WakesOne(cfg, r, waker, time, user, wakee);
    OffCpuEventsSnoc(s.emitted, WakeupEvent(wakee, waker, time));
    hide WakingStep, Shows, Parks, Returns, Wakes, OffCpuEvents, EventsFrom, AllComebacks;
    hide Comeback, Known, NewestOut, WakesFrom;
    var h := s.history;
    TargetsNext(cfg, recs, r, s.targetTids, s.targetTids);
    forall t ensures !Comeback(cfg, recs + [r], |recs|, t) {
      ComebackNow(cfg, recs, r, h.outAt, s.offStart, t);
    }
    OutsFromNext(cfg, recs, r, h.outAt, s.offStart, h.outAt, s.offStart);
    CountingWakes(cfg, recs, s, r, waker, time, user, wakee);
    hide TargetsFrom, OutsFrom;
    NoEventMore(cfg, recs, OffCpuEvents(s.emitted), h.origins, r);
  }

  lemma WakingLinked(cfg: Config, recs: seq<Rec>, s: State, r: Rec, waker: U32, time: U64, user: seq<Addr>, wakee: U32)
    requires Linked(cfg, recs, s) && (forall t :: t in s.targetTids ==> ValidTid(t)) && r == Waking(waker, time, user, wakee)
    ensures Linked(cfg, recs + [r], Counted(WakingStep(s, waker, time, user, wakee)))
  {
    assert s.history.handled == |recs|;
    hide Linked;
    if WakingCounts(s, waker, wakee) {
      CountingLinked(cfg, recs, s, r, waker, time, user, wakee);
    } else {
      WakingFields(s, waker, time, user, wakee);
      WakesOne(cfg, r, waker, time, user, wakee);
      hide WakingStep, Shows, Parks, Returns, Wakes, OffCpuEvents;
      QuietLinked(cfg, recs, r, s, Counted(s));
    }
  }

  /** What is left: no record of a thread of the target, one that only shows it, or lost records. */
  lemma OtherLinked(cfg: Config, recs: seq<Rec>, s: State, r: Rec)
    requires Linked(cfg, recs, s) && !r.Waking?
    requires r.Sample? || r.SwitchOut? || r.SwitchIn? ==> !Observable(cfg, r.pid, r.tid)
    ensures Linked(cfg, recs + [r], Step(cfg, s, r))
  {
    StepKinds(cfg, s, r);
    if r.Fork? || r.SwitchSample? {
      SeenFields(cfg, s, r);
    }
    assert s.history.handled == |recs|;
    hide Step, OffCpuEvents, Linked;
    QuietLinked(cfg, recs, r, s, Step(cfg, s, r));
  }

  lemma StepLinked(cfg: Config, recs: seq<Rec>, s: State, r: Rec)
    requires Linked(cfg, recs, s) && forall t :: t in s.targetTids ==> ValidTid(t)
    ensures Linked(cfg, recs + [r], Step(cfg, s, r))
  {
    hide Linked, Step, SampleStep, SwitchOutStep, SwitchInStep, WakingStep;
    StepKinds(cfg, s, r);
    if r.Waking? {
      WakingLinked(cfg, recs, s, r, r.wakerTid, r.time, r.user, r.wakee);
    } else if (r.Sample? || r.SwitchOut? || r.SwitchIn?) && Observable(cfg, r.pid, r.tid) {
      if r.Sample? {
        SampleLinked(cfg, recs, s, r, r.tid, r.time, r.user);
      } else if r.SwitchOut? {
        SwitchOutLinked(cfg, recs, s, r, r.tid, r.time, r.preempted, r.waitSite);
      } else {
        SwitchInLinked(cfg, recs, s, r, r.tid, r.time);
      }
    } else {
      OtherLinked(cfg, recs, s, r);
    }
  }

  lemma {:induction false} RunLinked(cfg: Config, recs: seq<Rec>)
    ensures Linked(cfg, recs, Run(cfg, recs))
  {
    if recs == [] {
      NothingLinked(cfg);
    } else {
      hide Linked, Step;
      var front, r := recs[..|recs| - 1], recs[|recs| - 1];
      RunLinked(cfg, front);
      RunLaws(cfg, front);
      StepLinked(cfg, front, Run(cfg, front), r);
      assert front + [r] == recs;
    }
  }

  lemma NothingLinked(cfg: Config)
    ensures Linked(cfg, [], START)
  {
  }

  // ---------------------------------------------------------------------------- teardown

  ghost predicate ClosedAt(os: seq<Origin>, k: nat) {
    exists i :: 0 <= i < |os| && os[i].back == None && os[i].out == k
  }

  /** A thread that never came back is still parked, or has its event, or had none to get. */
  ghost predicate LeftOrClosed(cfg: Config, recs: seq<Rec>, offStart: map<U32, Parked>, os: seq<Origin>, last: U64) {
    forall t, k: nat :: NewestOut(cfg, recs, |recs|, k, t) ==>
      t in offStart || TimeOf(recs[k]) >= last || ClosedAt(os, k)
  }

  /** Each thread is closed once, and is then no longer parked. */
  ghost predicate ClosedOnce(off: seq<Event>, os: seq<Origin>, offStart: map<U32, Parked>) {
    && |off| == |os|
    && (forall i :: 0 <= i < |os| && os[i].back == None ==> TidOf(off[i]) !in offStart)
    && (forall i, j :: 0 <= i < j < |os| && os[i].back == None && os[j].back == None ==> TidOf(off[i]) != TidOf(off[j]))
  }

  ghost predicate StillOut(cfg: Config, recs: seq<Rec>, outAt: map<U32, nat>, offStart: map<U32, Parked>) {
    && outAt.Keys == offStart.Keys
    && forall t :: t in outAt ==> NewestOut(cfg, recs, |recs|, outAt[t], t) && TimeOf(recs[outAt[t]]) == offStart[t].start
  }

  ghost predicate FlushLinked(cfg: Config, recs: seq<Rec>, s: State) {
    var off, os := OffCpuEvents(s.emitted), s.history.origins;
    && StillOut(cfg, recs, s.history.outAt, s.offStart) && EventsFrom(cfg, recs, off, os, Some(s.lastTs))
    && AllComebacks(cfg, recs, os) && LeftOrClosed(cfg, recs, s.offStart, os, s.lastTs) && ClosedOnce(off, os, s.offStart)
  }

  lemma BeforeTeardown(cfg: Config, recs: seq<Rec>, s: State)
    requires Linked(cfg, recs, s)
    ensures FlushLinked(cfg, recs, s)
  {
    hide NewestOut, WakerIs, OffCpuEvents, WakesFrom, TargetsFrom, AllComebacks;
    var off, os := OffCpuEvents(s.emitted), s.history.origins;
    forall i | 0 <= i < |off| ensures ComesFrom(cfg, recs, off[i], os[i], Some(s.lastTs)) && os[i].back.Some? {
      assert ComesFrom(cfg, recs, off[i], os[i], None);
    }
  }

  /** The interval of a thread that never came back: its newest switch-out, closed at teardown. */
  lemma ParkedComesFrom(cfg: Config, recs: seq<Rec>, s: State, tid: U32)
    requires StillOut(cfg, recs, s.history.outAt, s.offStart) && tid in s.offStart && s.offStart[tid].start < s.lastTs
    ensures var o := OriginOf(s.history, tid, None, None);
            && o.back == None && o.out == s.history.outAt[tid]
            && ComesFrom(cfg, recs, OffCpuEvent(tid, s.offStart[tid].start, s.lastTs, s.offStart[tid].stack, None), o, Some(s.lastTs))
  {
    hide NewestOut;
  }

  lemma EventsFromFlushed(cfg: Config, recs: seq<Rec>, off: seq<Event>, os: seq<Origin>, e: Event, o: Origin, last: U64)
    requires EventsFrom(cfg, recs, off, os, Some(last)) && ComesFrom(cfg, recs, e, o, Some(last)) && o.back == None
    requires AllComebacks(cfg, recs, os)
    ensures EventsFrom(cfg, recs, off + [e], os + [o], Some(last)) && AllComebacks(cfg, recs, os + [o])
  {
    hide ComesFrom, Comeback;
    forall b: nat, tid | Comeback(cfg, recs, b, tid) ensures exists i :: 0 <= i < |os + [o]| && (os + [o])[i].back == Some(b) {
      var i :| 0 <= i < |os| && os[i].back == Some(b);
      assert (os + [o])[i] == os[i];
    }
  }

  lemma ClosedMore(os: seq<Origin>, o: Origin, k: nat)
    ensures ClosedAt(os, k) ==> ClosedAt(os + [o], k)
    ensures o.back == None ==> ClosedAt(os + [o], o.out)
  {
    if ClosedAt(os, k) {
      var i :| 0 <= i < |os| && os[i].back == None && os[i].out == k;
      assert (os + [o])[i] == os[i];
    }
    assert (os + [o])[|os|] == o;
  }

  lemma LeftOrClosedFlushed(cfg: Config, recs: seq<Rec>, s: State, tid: U32, os': seq<Origin>)
    requires StillOut(cfg, recs, s.history.outAt, s.offStart) && tid in s.offStart
    requires LeftOrClosed(cfg, recs, s.offStart, s.history.origins, s.lastTs)
    requires forall k: nat :: ClosedAt(s.history.origins, k) ==> ClosedAt(os', k)
    requires s.offStart[tid].start >= s.lastTs || ClosedAt(os', s.history.outAt[tid])
    ensures LeftOrClosed(cfg, recs, s.offStart - {tid}, os', s.lastTs)
  {
    hide NewestOut, ClosedAt, TimeOf;
    OutsBelow(cfg, recs, |recs|, tid);
    forall k: nat | NewestOut(cfg, recs, |recs|, k, tid) ensures k == s.history.outAt[tid] {
      NewestIsOne(cfg, recs, |recs|, k, s.history.outAt[tid], tid);
    }
  }

  lemma StillOutLess(cfg: Config, recs: seq<Rec>, outAt: map<U32, nat>, offStart: map<U32, Parked>, tid: U32)
    requires StillOut(cfg, recs, outAt, offStart)
    ensures StillOut(cfg, recs, outAt - {tid}, offStart - {tid})
  {
    hide NewestOut, TimeOf;
  }

  lemma ClosedOnceMore(off: seq<Event>, os: seq<Origin>, offStart: map<U32, Parked>, e: Event, o: Origin)
    requires ClosedOnce(off, os, offStart) && TidOf(e) in offStart
    ensures ClosedOnce(off, os, offStart - {TidOf(e)}) && ClosedOnce(off + [e], os + [o], offStart - {TidOf(e)})
  {
    hide TidOf;
  }

  lemma FlushOneLinked(cfg: Config, recs: seq<Rec>, s: State, tid: U32)
    requires FlushLinked(cfg, recs, s) && tid in s.offStart
    ensures FlushLinked(cfg, recs, FlushOne(s, tid))
  {
    var parked, off, os := s.offStart[tid], OffCpuEvents(s.emitted), s.history.origins;
    var e, o := OffCpuEvent(tid, parked.start, s.lastTs, parked.stack, None), OriginOf(s.history, tid, None, None);
    hide FlushOne, OffCpuEvents, EventsFrom, AllComebacks, LeftOrClosed, NewestOut, TimeOf, OriginOf, ComesFrom, ClosedOnce, ClosedAt;
    FlushOneFields(s, tid);
    StillOutLess(cfg, recs, s.history.outAt, s.offStart, tid);
    ClosedOnceMore(off, os, s.offStart, e, o);
    if s.lastTs > parked.start {
      OffCpuEventsSnoc(s.emitted, e);
      ParkedComesFrom(cfg, recs, s, tid);
      EventsFromFlushed(cfg, recs, off, os, e, o, s.lastTs);
      forall k: nat ensures ClosedAt(os, k) ==> ClosedAt(os + [o], k) {
        ClosedMore(os, o, k);
      }
      ClosedMore(os, o, 0);
      LeftOrClosedFlushed(cfg, recs, s, tid, os + [o]);
    } else {
      LeftOrClosedFlushed(cfg, recs, s, tid, os);
    }
    hide StillOut;
  }

  lemma {:induction false} TeardownLinked(cfg: Config, recs: seq<Rec>, s: State, order: seq<U32>)
    requires FlushLinked(cfg, recs, s)
    ensures var f := Flush(s, order);
            && FlushLinked(cfg, recs, f) && f.targetTids == s.targetTids && f.lastTs == s.lastTs
            && forall t :: t in f.offStart <==> t in s.offStart && t !in order
  {
    if order != [] {
      var front, tid := order[..|order| - 1], order[|order| - 1];
      assert order == front + [tid];
      TeardownLinked(cfg, recs, s, front);
      var f := Flush(s, front);
      hide FlushLinked, FlushOne, OriginOf;
      if tid in f.offStart {
        FlushOneFields(f, tid);
        FlushOneLinked(cfg, recs, f, tid);
      }
    }
  }

  // ------------------------------------------------------------------------------ the newest time

  /** The record comes with a time of the target: its own sample or switch, or a wakeup of a thread known by then. */
  ghost predicate Timed(cfg: Config, recs: seq<Rec>, k: nat) {
    && k < |recs|
    && exists tid ::
         || ((recs[k].Sample? || recs[k].SwitchOut? || recs[k].SwitchIn?) && Shows(cfg, recs[k], tid))
         || (Wakes(recs[k], tid) && Known(cfg, recs, k, tid))
  }

  /** The greatest of those times; zero if there is none. */
  ghost predicate IsNewestTime(cfg: Config, recs: seq<Rec>, t: U64) {
    && (t == 0 || exists k: nat :: Timed(cfg, recs, k) && TimeOf(recs[k]) == t)
    && forall k: nat :: Timed(cfg, recs, k) ==> TimeOf(recs[k]) <= t
  }

  lemma NewestOnce(cfg: Config, recs: seq<Rec>, t: U64, u: U64)
    requires IsNewestTime(cfg, recs, t) && IsNewestTime(cfg, recs, u)
    ensures t == u
  {
    hide Timed, TimeOf;
  }

  lemma TimedLonger(cfg: Config, recs: seq<Rec>, r: Rec, k: nat)
    requires k < |recs|
    ensures Timed(cfg, recs + [r], k) <==> Timed(cfg, recs, k)
  {
    hide Shows, Wakes, Known;
    forall tid ensures Known(cfg, recs + [r], k, tid) <==> Known(cfg, recs, k, tid) {
      KnownLonger(cfg, recs, r, k, tid);
    }
    assert (recs + [r])[k] == recs[k];
  }

  /** The session's time moves with the records that come with one, and never back. */
  lemma StepTime(cfg: Config, recs: seq<Rec>, s: State, r: Rec)
    requires TargetsFrom(cfg, recs, s.targetTids)
    ensures Step(cfg, s, r).lastTs
         == if Timed(cfg, recs + [r], |recs|) && TimeOf(r) > s.lastTs then TimeOf(r) else s.lastTs
  {
    LastTimed(cfg, recs, r);
    if r.Fork? || r.SwitchSample? { SeenFields(cfg, s, r); }
    StepKinds(cfg, s, r);
    hide Step, SampleStep, SwitchOutStep, SwitchInStep, WakingStep, Timed, Known;
    if r.Sample? { SampleFields(cfg, s, r.tid, r.time, r.user); }
    if r.SwitchOut? { SwitchOutFields(s, r.tid, r.time, r.preempted, r.waitSite); }
    if r.SwitchIn? { SwitchInFields(s, r.tid, r.time); }
    if r.Waking? { WakingFields(s, r.wakerTid, r.time, r.user, r.wakee); }
  }

  lemma LastTimed(cfg: Config, recs: seq<Rec>, r: Rec)
    ensures Timed(cfg, recs + [r], |recs|)
       <==> || ((r.Sample? || r.SwitchOut? || r.SwitchIn?) && Observable(cfg, r.pid, r.tid))
            || (r.Waking? && r.wakerTid <= I32_MAX && Known(cfg, recs, |recs|, r.wakee))
  {
    hide Known;
    assert (recs + [r])[|recs|] == r;
    if r.Waking? { KnownLonger(cfg, recs, r, |recs|, r.wakee); }
    if (r.Sample? || r.SwitchOut? || r.SwitchIn?) && Observable(cfg, r.pid, r.tid) { assert Shows(cfg, r, r.tid); }
    if r.Waking? && r.wakerTid <= I32_MAX { assert Wakes(r, r.wakee); }
  }

  /** After any run the session's newest time is that of the records. */
  lemma {:induction false} NewestTime(cfg: Config, recs: seq<Rec>)
    ensures IsNewestTime(cfg, recs, Run(cfg, recs).lastTs)
  {
    hide Timed, TimeOf, Step;
    if recs == [] {
      NoneTimed(cfg);
    } else {
      var front, r := recs[..|recs| - 1], recs[|recs| - 1];
      assert front + [r] == recs;
      NewestTime(cfg, front);
      RunLinked(cfg, front);
      StepTime(cfg, front, Run(cfg, front), r);
      forall k: nat | k < |front| ensures Timed(cfg, recs, k) <==> Timed(cfg, front, k) {
        TimedLonger(cfg, front, r, k);
      }
      forall k: nat | Timed(cfg, recs, k) ensures k < |recs| {
        TimedBelow(cfg, recs, k);
      }
      forall k: nat | Timed(cfg, front, k) ensures k < |front| {
        TimedBelow(cfg, front, k);
      }
    }
  }

  lemma TimedBelow(cfg: Config, recs: seq<Rec>, k: nat)
    requires Timed(cfg, recs, k)
    ensures k < |recs|
  {
  }

  lemma NoneTimed(cfg: Config)
    ensures forall k: nat :: !Timed(cfg, [], k)
  {
  }

  // -------------------------------------------------------------------------------- lost records

  function LostShown(recs: seq<Rec>): nat {
    if recs == [] then 0
    else LostShown(recs[..|recs| - 1]) + if recs[|recs| - 1].Lost? then recs[|recs| - 1].count else 0
  }

  /** The kernel's reports of lost records are added up. */
  lemma {:induction false} LostIsCounted(cfg: Config, recs: seq<Rec>)
    ensures Run(cfg, recs).summary.lostRecords == Min(U64_MAX, LostShown(recs))
  {
    hide Step;
    if recs != [] {
      LostIsCounted(cfg, recs[..|recs| - 1]);
      StepLost(cfg, Run(cfg, recs[..|recs| - 1]), recs[|recs| - 1]);
    }
  }

  lemma StepLost(cfg: Config, s: State, r: Rec)
    ensures Step(cfg, s, r).summary.lostRecords == Min(U64_MAX, s.summary.lostRecords + if r.Lost? then r.count else 0)
  {
    StepKinds(cfg, s, r);
    if r.Fork? || r.SwitchSample? {
      hide Step, Observable;
      SeenFields(cfg, s, r);
    } else if r.Waking? {
      hide Step, WakingStep;
      WakingFields(s, r.wakerTid, r.time, r.user, r.wakee);
    } else if r.Lost? {
    } else {
      hide Step, SampleStep, SwitchOutStep, SwitchInStep, Observable;
      SwitchInKeepsLost(s, r.tid, r.time);
      if r.Sample? { SampleFields(cfg, s, r.tid, r.time, r.user); }
      if r.SwitchOut? { SwitchOutFields(s, r.tid, r.time, r.preempted, r.waitSite); }
    }
  }

  lemma SwitchInKeepsLost(s: State, tid: U32, time: U64)
    ensures SwitchInStep(s, tid, time).summary.lostRecords == s.summary.lostRecords
  {
    if Closes(s, tid, time) { ClosingFields(s, tid, time); } else { NotClosingFields(s, tid, time); }
    hide SwitchInStep, Closes, FreshWaker, OriginOf, Later;
  }

  // ------------------------------------------------------------------------------- results

  /** No switch-out, no switch-in and no wakeup stands for two intervals. */
  ghost predicate UsedOnce(os: seq<Origin>) {
    forall i, j :: 0 <= i < j < |os| ==>
      && os[i].out != os[j].out
      && (os[i].back.Some? ==> os[i].back != os[j].back)
      && (os[i].wake.Some? ==> os[i].wake != os[j].wake)
  }

  lemma OutsOfOne(cfg: Config, recs: seq<Rec>, m: nat, n: nat, k: nat, t: U32, u: U32)
    requires NewestOut(cfg, recs, m, k, t) && NewestOut(cfg, recs, n, k, u)
    ensures t == u
  {
  }

  lemma WakesOfOne(cfg: Config, recs: seq<Rec>, m: nat, n: nat, w: nat, t: U32, u: U32)
    requires PendingWaking(cfg, recs, m, w, t) && PendingWaking(cfg, recs, n, w, u)
    ensures t == u
  {
  }

  /** A thread's return lies after the switch-out it ends, so no later interval begins there. */
  lemma OutsDiffer(cfg: Config, recs: seq<Rec>, b: nat, n: nat, k: nat, l: nat, t: U32, u: U32)
    requires NewestOut(cfg, recs, b, k, t) && NewestOut(cfg, recs, n, l, u) && b < n && Returns(cfg, recs[b], t)
    ensures k != l
  {
    if k == l {
      OutsOfOne(cfg, recs, b, n, k, t, u);
      hide Parks, Returns;
    }
  }

  /** A comeback uses up the wakeup, so no later interval names it. */
  lemma WakesDiffer(cfg: Config, recs: seq<Rec>, b: nat, n: nat, v: nat, w: nat, t: U32, u: U32)
    requires PendingWaking(cfg, recs, b, v, t) && PendingWaking(cfg, recs, n, w, u) && b < n && Comeback(cfg, recs, b, t)
    ensures v != w
  {
    if v == w {
      WakesOfOne(cfg, recs, b, n, v, t, u);
      hide Known, Wakes, Comeback;
    }
  }

  lemma NeverShared(cfg: Config, recs: seq<Rec>, d: Event, o: Origin, e: Event, p: Origin, teardown: Option<U64>)
    requires ComesFrom(cfg, recs, d, o, teardown) && ComesFrom(cfg, recs, e, p, teardown) && o.back.Some?
    requires p.back.Some? ==> o.back.value < p.back.value
    ensures o.out != p.out && (o.wake.Some? ==> o.wake != p.wake)
  {
    hide NewestOut, PendingWaking, Returns, TimeOf, FreshAt;
    var b, n := o.back.value, if p.back.Some? then p.back.value else |recs|;
    OutsDiffer(cfg, recs, b, n, o.out, p.out, d.tid, e.tid);
    if o.wake.Some? && p.wake.Some? {
      assert Comeback(cfg, recs, b, d.tid);
      hide Comeback;
      WakesDiffer(cfg, recs, b, n, o.wake.value, p.wake.value, d.tid, e.tid);
    }
  }

  lemma ClosedApart(cfg: Config, recs: seq<Rec>, d: Event, o: Origin, e: Event, p: Origin, teardown: Option<U64>)
    requires ComesFrom(cfg, recs, d, o, teardown) && ComesFrom(cfg, recs, e, p, teardown)
    requires o.back == None && p.back == None && TidOf(d) != TidOf(e)
    ensures o.out != p.out && o.wake == None
  {
    OutsOfOthers(cfg, recs, o.out, p.out, TidOf(d), TidOf(e));
  }

  lemma OutsOfOthers(cfg: Config, recs: seq<Rec>, k: nat, l: nat, t: U32, u: U32)
    requires NewestOut(cfg, recs, |recs|, k, t) && NewestOut(cfg, recs, |recs|, l, u) && t != u
    ensures k != l
  {
  }

  lemma EachUsedOnce(cfg: Config, recs: seq<Rec>, off: seq<Event>, os: seq<Origin>, teardown: Option<U64>)
    requires EventsFrom(cfg, recs, off, os, teardown)
    requires forall i, j :: 0 <= i < j < |os| && os[i].back == None && os[j].back == None ==> TidOf(off[i]) != TidOf(off[j])
    ensures UsedOnce(os)
  {
    hide ComesFrom;
    forall i, j | 0 <= i < j < |os|
      ensures && os[i].out != os[j].out && (os[i].back.Some? ==> os[i].back != os[j].back)
              && (os[i].wake.Some? ==> os[i].wake != os[j].wake)
    {
      assert ComesFrom(cfg, recs, off[i], os[i], teardown) && ComesFrom(cfg, recs, off[j], os[j], teardown);
      if os[i].back.Some? {
        NeverShared(cfg, recs, off[i], os[i], off[j], os[j], teardown);
      } else {
        ClosedApart(cfg, recs, off[i], os[i], off[j], os[j], teardown);
      }
    }
  }

  /** Each event is about a thread that a record of the target shows, its interval proper and past. */
  ghost predicate EventsShown(cfg: Config, recs: seq<Rec>, es: seq<Event>, lastTs: U64) {
    forall e :: e in es ==> IntervalOk(e, lastTs) && Known(cfg, recs, |recs|, TidOf(e))
  }

  ghost predicate Justified(cfg: Config, recs: seq<Rec>, s: State, newest: U64, teardown: Option<U64>) {
    var off, os := OffCpuEvents(s.emitted), s.history.origins;
    && EventsShown(cfg, recs, s.emitted, newest) && CountsOk(s)
    && EventsFrom(cfg, recs, off, os, teardown) && AllComebacks(cfg, recs, os) && UsedOnce(os)
  }

  lemma EventsShownByTargets(cfg: Config, recs: seq<Rec>, s: State)
    requires TargetsFrom(cfg, recs, s.targetTids) && EventsOk(s)
    ensures EventsShown(cfg, recs, s.emitted, s.lastTs)
  {
    hide Known;
    forall e | e in s.emitted ensures IntervalOk(e, s.lastTs) && Known(cfg, recs, |recs|, TidOf(e)) {
      assert EventOk(e, s.targetTids, s.lastTs);
    }
  }

  /**
   Over every run: each event is about a thread shown by a record of the target process. The off-CPU
   intervals are exactly the returns from an absence that the records show: each is one thread's newest
   voluntary switch-out up to its next switch-in, and names a waker exactly if a wakeup of the thread was
   pending then and fresh. No record stands for two of them. The counters are the numbers of events.
   */
  lemma RunOk(cfg: Config, recs: seq<Rec>, newest: U64)
    requires IsNewestTime(cfg, recs, newest)
    ensures Justified(cfg, recs, Run(cfg, recs), newest, None)
  {
    NewestTime(cfg, recs);
    NewestOnce(cfg, recs, newest, Run(cfg, recs).lastTs);
    hide IsNewestTime;
    hide Run, EventsOk, CountsOk, OutsFrom, WakesFrom, AllComebacks, OffCpuEvents, EventsShown, UsedOnce;
    var s := Run(cfg, recs);
    RunLaws(cfg, recs);
    RunLinked(cfg, recs);
    NoneClosed(cfg, recs, OffCpuEvents(s.emitted), s.history.origins);
    hide EventsFrom;
    EachUsedOnce(cfg, recs, OffCpuEvents(s.emitted), s.history.origins, None);
    EventsShownByTargets(cfg, recs, s);
  }

  lemma NoneClosed(cfg: Config, recs: seq<Rec>, off: seq<Event>, os: seq<Origin>)
    requires EventsFrom(cfg, recs, off, os, None)
    ensures |off| == |os| && forall i :: 0 <= i < |os| ==> os[i].back.Some?
  {
    forall i | 0 <= i < |os| ensures os[i].back.Some? {
      assert ComesFrom(cfg, recs, off[i], os[i], None);
    }
  }

  /**
   The same after teardown, where a thread that never came back is closed at the newest time in the
   records: each of the threads visited, exactly if it had gone to sleep before that time.
   */
  lemma RunAndFlushOk(cfg: Config, recs: seq<Rec>, order: seq<U32>, newest: U64)
    requires IsNewestTime(cfg, recs, newest)
    ensures var f := Flush(Run(cfg, recs), order);
            && Justified(cfg, recs, f, newest, Some(newest))
            && forall t, k: nat :: t in order && NewestOut(cfg, recs, |recs|, k, t) && TimeOf(recs[k]) < newest ==>
                 ClosedAt(f.history.origins, k)
  {
    NewestTime(cfg, recs);
    NewestOnce(cfg, recs, newest, Run(cfg, recs).lastTs);
    hide IsNewestTime;
    hide Run, Flush, EventsOk, CountsOk, OutsFrom, WakesFrom, EventsFrom, AllComebacks, OffCpuEvents, EventsShown, UsedOnce;
    var s, f := Run(cfg, recs), Flush(Run(cfg, recs), order);
    RunLaws(cfg, recs);
    FlushLaws(s, order);
    RunLinked(cfg, recs);
    BeforeTeardown(cfg, recs, s);
    TeardownLinked(cfg, recs, s, order);
    EachUsedOnce(cfg, recs, OffCpuEvents(f.emitted), f.history.origins, Some(s.lastTs));
    EventsShownByTargets(cfg, recs, f);
    hide NewestOut, TimeOf, ClosedAt, StillOut, ClosedOnce;
  }

  /**
   The established targets are exactly the threads of the target process that some record shows, the
   leading ones for the threads found at attach among them.
   */
  lemma TargetsAreShown(cfg: Config, recs: seq<Rec>, tid: U32)
    ensures tid in Run(cfg, recs).targetTids <==> Known(cfg, recs, |recs|, tid)
  {
    RunLinked(cfg, recs);
  }
}
