/**
 Stall detection on a timeline: runs of bins whose on-CPU time is at or below a ceiling. The ceiling
 is a share of the median bin; it is a parameter here.
 */
module Stalls {
  import opened Numbers
  import opened Options
  import opened Sorting

  datatype Bin = Bin(onCpu: U64, target: U64)

  /** Bins `first` to `last`, both included. */
  datatype Stall = Stall(first: nat, last: nat, onCpu: U64, target: U64)

  predicate Low(bins: seq<Bin>, ceiling: U64, i: int) {
    0 <= i < |bins| && bins[i].onCpu <= ceiling
  }

  /** A run of low bins that cannot be made longer on either side. */
  ghost predicate MaximalRun(bins: seq<Bin>, ceiling: U64, first: int, last: int) {
    && 0 <= first <= last < |bins|
    && (forall i :: first <= i <= last ==> Low(bins, ceiling, i))
    && !Low(bins, ceiling, first - 1) && !Low(bins, ceiling, last + 1)
  }

  ghost function OnCpuSum(bins: seq<Bin>): nat {
    if bins == [] then 0 else OnCpuSum(bins[..|bins| - 1]) + bins[|bins| - 1].onCpu
  }

  ghost function TargetSum(bins: seq<Bin>): nat {
    if bins == [] then 0 else TargetSum(bins[..|bins| - 1]) + bins[|bins| - 1].target
  }

  /** The window carries what its bins add up to, as far as that fits. */
  ghost predicate Sums(bins: seq<Bin>, first: nat, last: nat, onCpu: U64, target: U64)
    requires first <= last < |bins|
  {
    && onCpu == Min(U64_MAX, OnCpuSum(bins[first..last + 1]))
    && target == Min(U64_MAX, TargetSum(bins[first..last + 1]))
  }

  ghost predicate WindowOk(bins: seq<Bin>, ceiling: U64, w: Stall) {
    MaximalRun(bins, ceiling, w.first, w.last) && Sums(bins, w.first, w.last, w.onCpu, w.target)
  }

  ghost predicate Ascending(windows: seq<Stall>) {
    forall i, j :: 0 <= i < j < |windows| ==> windows[i].last < windows[j].first
  }

  /** Every maximal run that ends before bin `n` is one of the windows. */
  ghost predicate AllFound(bins: seq<Bin>, ceiling: U64, windows: seq<Stall>, n: nat) {
    forall first, last :: MaximalRun(bins, ceiling, first, last) && last + 1 < n
      ==> exists k :: 0 <= k < |windows| && windows[k].first == first && windows[k].last == last
  }

  /** Exactly the maximal runs, from left to right. */
  ghost predicate WindowsExact(bins: seq<Bin>, ceiling: U64, windows: seq<Stall>) {
    && (forall k :: 0 <= k < |windows| ==> WindowOk(bins, ceiling, windows[k]))
    && Ascending(windows)
    && AllFound(bins, ceiling, windows, |bins| + 1)
  }

  datatype Open = Open(first: nat, onCpu: U64, target: U64)

  ghost predicate OpenOk(bins: seq<Bin>, ceiling: U64, cur: Option<Open>, n: nat)
    requires n <= |bins|
  {
    match cur
    case None => !Low(bins, ceiling, n - 1)
    case Some(o) =>
      && o.first < n && !Low(bins, ceiling, o.first - 1)
      && (forall i :: o.first <= i < n ==> Low(bins, ceiling, i))
      && Sums(bins, o.first, n - 1, o.onCpu, o.target)
  }

  lemma SumsOneMore(bins: seq<Bin>, first: nat, last: nat, onCpu: U64, target: U64)
    requires first <= last && last + 1 < |bins| && Sums(bins, first, last, onCpu, target)
    ensures Sums(bins, first, last + 1, SatAdd(onCpu, bins[last + 1].onCpu), SatAdd(target, bins[last + 1].target))
  {
    var s := bins[first..last + 2];
    assert s[..|s| - 1] == bins[first..last + 1];
  }

  lemma SumsOne(bins: seq<Bin>, first: nat)
    requires first < |bins|
    ensures Sums(bins, first, first, bins[first].onCpu, bins[first].target)
  {
    var s := bins[first..first + 1];
    assert s == [bins[first]] && s[..0] == [];
  }

  /** After the first `n` bins: the windows that have closed, and the one that is open. */
  ghost predicate SoFar(bins: seq<Bin>, ceiling: U64, windows: seq<Stall>, cur: Option<Open>, n: nat) {
    && n <= |bins| && OpenOk(bins, ceiling, cur, n)
    && (forall k :: 0 <= k < |windows| ==> WindowOk(bins, ceiling, windows[k]) && windows[k].last < n)
    && (cur.Some? ==> forall k :: 0 <= k < |windows| ==> windows[k].last < cur.value.first)
    && Ascending(windows) && AllFound(bins, ceiling, windows, n)
  }

  lemma NothingSoFar(bins: seq<Bin>, ceiling: U64)
    ensures SoFar(bins, ceiling, [], None, 0)
  {
  }

  lemma OpenWindow(bins: seq<Bin>, ceiling: U64, windows: seq<Stall>, i: nat)
    requires SoFar(bins, ceiling, windows, None, i) && i < |bins| && bins[i].onCpu <= ceiling
    ensures SoFar(bins, ceiling, windows, Some(Open(i, bins[i].onCpu, bins[i].target)), i + 1)
  {
    SumsOne(bins, i);
    NoRunEndsInside(bins, ceiling, windows, i);
    hide Sums, AllFound, MaximalRun;
  }

  lemma ExtendWindow(bins: seq<Bin>, ceiling: U64, windows: seq<Stall>, o: Open, i: nat)
    requires SoFar(bins, ceiling, windows, Some(o), i) && i < |bins| && bins[i].onCpu <= ceiling
    ensures SoFar(bins, ceiling, windows, Some(Open(o.first, SatAdd(o.onCpu, bins[i].onCpu), SatAdd(o.target, bins[i].target))), i + 1)
  {
    SumsOneMore(bins, o.first, i - 1, o.onCpu, o.target);
    NoRunEndsInside(bins, ceiling, windows, i);
    hide Sums, AllFound, MaximalRun;
  }

  function Closed(windows: seq<Stall>, cur: Option<Open>, i: nat): seq<Stall>
    requires cur.Some? ==> i > 0
  {
    match cur
    case None => windows
    case Some(o) => windows + [Stall(o.first, i - 1, o.onCpu, o.target)]
  }

  /** At a bin that is not low, or past the last one, the open window closes. */
  lemma CloseWindow(bins: seq<Bin>, ceiling: U64, windows: seq<Stall>, cur: Option<Open>, i: nat)
    requires SoFar(bins, ceiling, windows, cur, i) && !Low(bins, ceiling, i)
    ensures cur.Some? ==> i > 0
    ensures var closed := Closed(windows, cur, i);
            && (forall k :: 0 <= k < |closed| ==> WindowOk(bins, ceiling, closed[k]) && closed[k].last < i)
            && Ascending(closed) && AllFound(bins, ceiling, closed, i + 1)
  {
    RunEndsHere(bins, ceiling, windows, cur, i, Closed(windows, cur, i));
    hide Sums, AllFound;
    if cur.Some? {
      assert MaximalRun(bins, ceiling, cur.value.first, i - 1);
    }
    hide MaximalRun;
  }

  lemma NextWindow(bins: seq<Bin>, ceiling: U64, windows: seq<Stall>, cur: Option<Open>, i: nat)
    requires SoFar(bins, ceiling, windows, cur, i) && i < |bins| && !Low(bins, ceiling, i)
    ensures cur.Some? ==> i > 0
    ensures SoFar(bins, ceiling, Closed(windows, cur, i), None, i + 1)
  {
    CloseWindow(bins, ceiling, windows, cur, i);
    hide WindowOk, AllFound, Ascending;
  }

  lemma HighBin(bins: seq<Bin>, ceiling: U64, i: nat)
    requires i < |bins| ==> bins[i].onCpu > ceiling
    ensures !Low(bins, ceiling, i)
  {
  }

  /** The first pass: opens, extends and closes windows. */
  method Windows(bins: seq<Bin>, ceiling: U64) returns (windows: seq<Stall>)
    ensures WindowsExact(bins, ceiling, windows)
  {
    windows := [];
    var cur: Option<Open> := None;
    var i := 0;
    hide SoFar, WindowOk, AllFound, Ascending, Low;
    NothingSoFar(bins, ceiling);
    while i < |bins|
      invariant i <= |bins| && SoFar(bins, ceiling, windows, cur, i)
    {
      var b := bins[i];
      if b.onCpu <= ceiling {
        match cur {
          case Some(o) =>
            ExtendWindow(bins, ceiling, windows, o, i);
            cur := Some(Open(o.first, SatAdd(o.onCpu, b.onCpu), SatAdd(o.target, b.target)));
          case None =>
            OpenWindow(bins, ceiling, windows, i);
            cur := Some(Open(i, b.onCpu, b.target));
        }
      } else {
        HighBin(bins, ceiling, i);
        NextWindow(bins, ceiling, windows, cur, i);
        if cur.Some? {
          windows := windows + [Stall(cur.value.first, i - 1, cur.value.onCpu, cur.value.target)];
          cur := None;
        }
      }
      i := i + 1;
    }
    HighBin(bins, ceiling, i);
    CloseWindow(bins, ceiling, windows, cur, i);
    if cur.Some? {
      windows := windows + [Stall(cur.value.first, |bins| - 1, cur.value.onCpu, cur.value.target)];
    }
  }

  /** A run cannot end just before a low bin. */
  lemma NoRunEndsInside(bins: seq<Bin>, ceiling: U64, windows: seq<Stall>, i: nat)
    requires i < |bins| && Low(bins, ceiling, i) && AllFound(bins, ceiling, windows, i)
    ensures AllFound(bins, ceiling, windows, i + 1)
  {
    forall first, last | MaximalRun(bins, ceiling, first, last) && last + 1 < i + 1
      ensures exists k :: 0 <= k < |windows| && windows[k].first == first && windows[k].last == last
    {
      assert last + 1 != i;
    }
  }

  /** The run that ends just before bin `i` is the open one. */
  lemma RunEndsHere(bins: seq<Bin>, ceiling: U64, before: seq<Stall>, cur: Option<Open>, i: nat, windows: seq<Stall>)
    requires i <= |bins| && !Low(bins, ceiling, i) && OpenOk(bins, ceiling, cur, i) && AllFound(bins, ceiling, before, i)
    requires windows == if cur.Some? then before + [Stall(cur.value.first, i - 1, cur.value.onCpu, cur.value.target)] else before
    ensures AllFound(bins, ceiling, windows, i + 1)
  {
    hide Sums;
    forall first, last | MaximalRun(bins, ceiling, first, last) && last + 1 < i + 1
      ensures exists k :: 0 <= k < |windows| && windows[k].first == first && windows[k].last == last
    {
      if last + 1 < i {
        var k :| 0 <= k < |before| && before[k].first == first && before[k].last == last;
        assert windows[k] == before[k];
      } else {
        OpenRunStart(bins, ceiling, cur, i, first);
        assert windows[|before|].first == first;
      }
    }
  }

  /** A run that ends just before bin `i` began where the open one did. */
  lemma OpenRunStart(bins: seq<Bin>, ceiling: U64, cur: Option<Open>, i: nat, first: int)
    requires i <= |bins| && OpenOk(bins, ceiling, cur, i) && MaximalRun(bins, ceiling, first, i - 1)
    ensures cur.Some? && cur.value.first == first
  {
    hide Sums;
    assert Low(bins, ceiling, i - 1) && cur.Some?;
    SameStart(bins, ceiling, first, cur.value.first, i - 1);
  }

  lemma SameStart(bins: seq<Bin>, ceiling: U64, a: int, b: int, last: int)
    requires a <= last && b <= last
    requires forall i :: a <= i <= last ==> Low(bins, ceiling, i)
    requires forall i :: b <= i <= last ==> Low(bins, ceiling, i)
    requires !Low(bins, ceiling, a - 1) && !Low(bins, ceiling, b - 1)
    ensures a == b
  {
  }

  // ---------------------------------------------------------------------------------- the report

  function Length(w: Stall): int {
    w.last - w.first + 1
  }

  /** 64-bit product: it wraps in an optimised build. */
  function Duration(w: Stall, binNs: U64): U64 {
    Length(w) * binNs % (U64_MAX + 1)
  }

  /** Sort key: the longest window first. */
  function Rank(binNs: U64): Stall -> int {
    (w: Stall) => 0 - Duration(w, binNs)
  }

  predicate LongEnough(w: Stall, binNs: U64, minNs: U64) {
    Duration(w, binNs) >= minNs
  }

  function Survivors(windows: seq<Stall>, binNs: U64, minNs: U64): seq<Stall> {
    if windows == [] then []
    else
      var front, last := windows[..|windows| - 1], windows[|windows| - 1];
      if LongEnough(last, binNs, minNs) then Survivors(front, binNs, minNs) + [last] else Survivors(front, binNs, minNs)
  }

  function Itself(x: U64): int {
    x
  }

  /** The upper median. */
  function Median(values: seq<U64>): U64
    requires values != []
  {
    StableSortSorts(values, Itself);
    StableSort(values, Itself)[|values| / 2]
  }

  function OnCpuOf(bins: seq<Bin>): seq<U64> {
    seq(|bins|, i requires 0 <= i < |bins| => bins[i].onCpu)
  }

  /** What the caller is told, given the windows. */
  function Report(windows: seq<Stall>, binNs: U64, minNs: U64): seq<Stall> {
    StableSort(Survivors(windows, binNs, minNs), Rank(binNs))
  }

  /** The ceiling is computed from the median. */
  method DetectStalls(bins: seq<Bin>, binNs: U64, ceilingOf: U64 -> U64, minNs: U64) returns (median: U64, stalls: seq<Stall>)
    ensures bins == [] || Median(OnCpuOf(bins)) == 0 ==> median == 0 && stalls == []
    ensures bins != [] && Median(OnCpuOf(bins)) != 0 ==>
              && median == Median(OnCpuOf(bins))
              && exists windows :: WindowsExact(bins, ceilingOf(median), windows) && stalls == Report(windows, binNs, minNs)
  {
    if bins == [] { return 0, []; }
    median := Median(OnCpuOf(bins));
    if median == 0 { return 0, []; }
    var windows := Windows(bins, ceilingOf(median));
    stalls := Report(windows, binNs, minNs);
  }

  lemma {:induction false} SurvivorsExact(windows: seq<Stall>, binNs: U64, minNs: U64)
    ensures forall w :: w in Survivors(windows, binNs, minNs) <==> w in windows && LongEnough(w, binNs, minNs)
    ensures multiset(Survivors(windows, binNs, minNs)) <= multiset(windows)
  {
    if windows != [] {
      hide LongEnough;
      var front := windows[..|windows| - 1];
      SurvivorsExact(front, binNs, minNs);
      assert windows == front + [windows[|windows| - 1]];
    }
  }

  /** How long the bins from the first to the last take, as far as 64 bits show it. */
  function Lasts(w: Stall, binNs: U64): int {
    (w.last + 1 - w.first) * binNs % 0x1_0000_0000_0000_0000
  }

  lemma DurationIs(w: Stall, binNs: U64)
    ensures Duration(w, binNs) == Lasts(w, binNs)
  {
  }

  lemma ReportDistinct(bins: seq<Bin>, ceiling: U64, windows: seq<Stall>, binNs: U64, minNs: U64)
    requires WindowsExact(bins, ceiling, windows)
    ensures var stalls := Report(windows, binNs, minNs); forall i, j :: 0 <= i < j < |stalls| ==> stalls[i] != stalls[j]
  {
    hide LongEnough, WindowOk, WindowsExact, Duration;
    var survivors, stalls := Survivors(windows, binNs, minNs), Report(windows, binNs, minNs);
    SurvivorsExact(windows, binNs, minNs);
    StableSortSorts(survivors, Rank(binNs));
    WindowsAreRuns(bins, ceiling, windows);
    OnceEach(windows);
    hide Survivors, Report, Ascending, SortedBy;
    forall i, j | 0 <= i < j < |stalls| ensures stalls[i] != stalls[j] {
      if stalls[i] == stalls[j] { TwicePresent(stalls, i, j); }
    }
  }

  /** The stalls reported are the long enough maximal runs, once each, the longest first. */
  lemma ReportExact(bins: seq<Bin>, ceiling: U64, windows: seq<Stall>, binNs: U64, minNs: U64)
    requires WindowsExact(bins, ceiling, windows)
    ensures var stalls := Report(windows, binNs, minNs);
            && (forall w :: w in stalls <==> WindowOk(bins, ceiling, w) && Lasts(w, binNs) >= minNs)
            && (forall i, j :: 0 <= i < j < |stalls| ==> Lasts(stalls[i], binNs) >= Lasts(stalls[j], binNs))
            && (forall i, j :: 0 <= i < j < |stalls| ==> stalls[i] != stalls[j])
  {
    forall w ensures Duration(w, binNs) == Lasts(w, binNs) { DurationIs(w, binNs); }
    hide Lasts, WindowOk, Duration, WindowsExact;
    var survivors, stalls := Survivors(windows, binNs, minNs), Report(windows, binNs, minNs);
    SurvivorsExact(windows, binNs, minNs);
    StableSortSorts(survivors, Rank(binNs));
    SameMembers(stalls, survivors);
    ReportDistinct(bins, ceiling, windows, binNs, minNs);
    hide Survivors;
    forall w ensures WindowOk(bins, ceiling, w) <==> w in windows {
      WindowIsListed(bins, ceiling, windows, w);
    }
    forall i, j | 0 <= i < j < |stalls| ensures Lasts(stalls[i], binNs) >= Lasts(stalls[j], binNs) {
      assert Rank(binNs)(stalls[i]) <= Rank(binNs)(stalls[j]);
    }
  }

  /**
   When the whole timeline can be counted in nanoseconds, exactly the maximal runs whose bins last long
   enough are reported, those with more bins first.
   */
  lemma RankedByLength(bins: seq<Bin>, ceiling: U64, windows: seq<Stall>, binNs: U64, minNs: U64)
    requires WindowsExact(bins, ceiling, windows) && |bins| * binNs <= U64_MAX && binNs > 0
    ensures var stalls := Report(windows, binNs, minNs);
            && (forall w :: w in stalls <==> WindowOk(bins, ceiling, w) && (w.last + 1 - w.first) * binNs >= minNs)
            && forall i, j :: 0 <= i < j < |stalls| ==>
                 stalls[i].last - stalls[i].first >= stalls[j].last - stalls[j].first
  {
    ReportExact(bins, ceiling, windows, binNs, minNs);
    hide Report, WindowsExact, Lasts, WindowOk;
    var stalls := Report(windows, binNs, minNs);
    forall w | w in stalls || WindowOk(bins, ceiling, w) ensures Lasts(w, binNs) == (w.last + 1 - w.first) * binNs {
      WindowFits(bins, ceiling, w, binNs);
    }
    forall i, j | 0 <= i < j < |stalls| ensures stalls[i].last - stalls[i].first >= stalls[j].last - stalls[j].first {
      assert stalls[i] in stalls && stalls[j] in stalls;
      LongerFirst(bins, ceiling, stalls[i], stalls[j], binNs);
    }
  }

  lemma WindowFits(bins: seq<Bin>, ceiling: U64, w: Stall, binNs: U64)
    requires WindowOk(bins, ceiling, w) && |bins| * binNs <= U64_MAX
    ensures Lasts(w, binNs) == (w.last + 1 - w.first) * binNs
  {
    DurationFits(bins, w, binNs);
  }

  lemma LongerFirst(bins: seq<Bin>, ceiling: U64, v: Stall, w: Stall, binNs: U64)
    requires WindowOk(bins, ceiling, v) && WindowOk(bins, ceiling, w) && |bins| * binNs <= U64_MAX && binNs > 0
    requires Lasts(v, binNs) >= Lasts(w, binNs)
    ensures v.last - v.first >= w.last - w.first
  {
    hide Lasts;
    WindowFits(bins, ceiling, v, binNs);
    WindowFits(bins, ceiling, w, binNs);
    hide WindowOk;
    var x, y := v.last + 1 - v.first, w.last + 1 - w.first;
    if x < y { StrictlyScaled(x, y, binNs); }
  }

  lemma StrictlyScaled(x: int, y: int, k: int)
    requires x < y && k > 0
    ensures x * k < y * k
  {
    Scaled(x + 1, y, k);
  }

  lemma Scaled(x: int, y: int, k: int)
    requires x <= y && k >= 0
    ensures x * k <= y * k
  {
  }

  lemma DurationFits(bins: seq<Bin>, w: Stall, binNs: U64)
    requires w.first <= w.last < |bins| && |bins| * binNs <= U64_MAX
    ensures Lasts(w, binNs) == (w.last + 1 - w.first) * binNs
  {
    Scaled(w.last + 1 - w.first, |bins|, binNs);
    Scaled(0, w.last + 1 - w.first, binNs);
  }

  lemma WindowsAreRuns(bins: seq<Bin>, ceiling: U64, windows: seq<Stall>)
    requires WindowsExact(bins, ceiling, windows)
    ensures Ascending(windows) && forall k :: 0 <= k < |windows| ==> windows[k].first <= windows[k].last
  {
    forall k | 0 <= k < |windows| ensures windows[k].first <= windows[k].last {
      assert WindowOk(bins, ceiling, windows[k]);
    }
  }

  lemma TwicePresent<T>(s: seq<T>, i: nat, j: nat)
    requires i < j < |s| && s[i] == s[j]
    ensures multiset(s)[s[i]] >= 2
  {
    assert s == s[..i] + [s[i]] + s[i + 1..j] + [s[j]] + s[j + 1..];
  }

  lemma LastIsNew(windows: seq<Stall>)
    requires windows != [] && Ascending(windows) && forall k :: 0 <= k < |windows| ==> windows[k].first <= windows[k].last
    ensures Ascending(windows[..|windows| - 1]) && windows[|windows| - 1] !in windows[..|windows| - 1]
  {
    var n := |windows| - 1;
    forall k | 0 <= k < n ensures windows[k] != windows[n] {
      assert windows[k].last < windows[n].first;
    }
  }

  lemma OnceMore<T>(front: seq<T>, last: T)
    requires last !in front && forall w :: multiset(front)[w] <= 1
    ensures forall w :: multiset(front + [last])[w] <= 1
  {
    assert multiset(front + [last]) == multiset(front) + multiset{last};
  }

  lemma {:induction false} OnceEach(windows: seq<Stall>)
    requires Ascending(windows) && forall k :: 0 <= k < |windows| ==> windows[k].first <= windows[k].last
    ensures forall w :: multiset(windows)[w] <= 1
  {
    hide Ascending;
    if windows != [] {
      var front, last := windows[..|windows| - 1], windows[|windows| - 1];
      LastIsNew(windows);
      OnceEach(front);
      OnceMore(front, last);
      assert windows == front + [last];
    }
  }

  lemma WindowIsListed(bins: seq<Bin>, ceiling: U64, windows: seq<Stall>, w: Stall)
    requires WindowsExact(bins, ceiling, windows)
    ensures WindowOk(bins, ceiling, w) <==> w in windows
  {
    if WindowOk(bins, ceiling, w) {
      assert MaximalRun(bins, ceiling, w.first, w.last) && w.last + 1 < |bins| + 1;
      var k :| 0 <= k < |windows| && windows[k].first == w.first && windows[k].last == w.last;
      assert WindowOk(bins, ceiling, windows[k]);
      assert windows[k] == w;
    }
  }

  // ------------------------------------------------------------------------- the counting bound

  ghost function LowCount(values: seq<U64>, ceiling: U64): nat {
    if values == [] then 0
    else LowCount(values[..|values| - 1], ceiling) + if values[|values| - 1] <= ceiling then 1 else 0
  }

  lemma {:induction false} LowCountConcat(a: seq<U64>, b: seq<U64>, ceiling: U64)
    ensures LowCount(a + b, ceiling) == LowCount(a, ceiling) + LowCount(b, ceiling)
    decreases |b|
  {
    if b == [] {
      assert a + b == a;
    } else {
      assert (a + b)[..|a + b| - 1] == a + b[..|b| - 1];
      LowCountConcat(a, b[..|b| - 1], ceiling);
    }
  }

  lemma {:induction false} InsertKeepsLowCount(s: seq<U64>, x: U64, key: U64 -> int, ceiling: U64)
    ensures LowCount(InsertLast(s, x, key), ceiling) == LowCount(s + [x], ceiling)
  {
    LowCountConcat(s, [x], ceiling);
    if s != [] && key(s[|s| - 1]) > key(x) {
      var front := s[..|s| - 1];
      InsertKeepsLowCount(front, x, key, ceiling);
      LowCountConcat(front, [x], ceiling);
      LowCountConcat(InsertLast(front, x, key), [s[|s| - 1]], ceiling);
      LowCountConcat(front, [s[|s| - 1]], ceiling);
      assert s == front + [s[|s| - 1]];
    }
  }

  lemma {:induction false} SortKeepsLowCount(s: seq<U64>, key: U64 -> int, ceiling: U64)
    ensures LowCount(StableSort(s, key), ceiling) == LowCount(s, ceiling)
  {
    if s != [] {
      var front, last := s[..|s| - 1], s[|s| - 1];
      SortKeepsLowCount(front, key, ceiling);
      InsertKeepsLowCount(StableSort(front, key), last, key, ceiling);
      LowCountConcat(StableSort(front, key), [last], ceiling);
      LowCountConcat(front, [last], ceiling);
      assert s == front + [last];
    }
  }

  lemma {:induction false} LowCountBounded(s: seq<U64>, ceiling: U64)
    ensures LowCount(s, ceiling) <= |s|
    ensures (forall i :: 0 <= i < |s| ==> s[i] > ceiling) ==> LowCount(s, ceiling) == 0
    ensures (forall i :: 0 <= i < |s| ==> s[i] <= ceiling) ==> LowCount(s, ceiling) == |s|
  {
    if s != [] { LowCountBounded(s[..|s| - 1], ceiling); }
  }

  /** Below the median lie at most half of the bins; at or below it, more than half. */
  lemma MedianSplits(values: seq<U64>, ceiling: U64)
    requires values != []
    ensures ceiling < Median(values) ==> LowCount(values, ceiling) <= |values| / 2
    ensures ceiling >= Median(values) ==> LowCount(values, ceiling) > |values| / 2
  {
    StableSortSorts(values, Itself);
    SortKeepsLowCount(values, Itself, ceiling);
    SortedSplits(StableSort(values, Itself), |values| / 2, ceiling);
  }

  lemma SortedSplits(sorted: seq<U64>, half: nat, ceiling: U64)
    requires SortedBy(sorted, Itself) && half < |sorted|
    ensures ceiling < sorted[half] ==> LowCount(sorted, ceiling) <= half
    ensures ceiling >= sorted[half] ==> LowCount(sorted, ceiling) > half
  {
    hide LowCount, SortedBy;
    var cut := if ceiling < sorted[half] then half else half + 1;
    var below, above := sorted[..cut], sorted[cut..];
    assert sorted == below + above;
    LowCountConcat(below, above, ceiling);
    LowCountBounded(below, ceiling);
    if ceiling < sorted[half] {
      forall i | 0 <= i < |above| ensures above[i] > ceiling {
        InOrder(sorted, half, half + i);
      }
      LowCountBounded(above, ceiling);
    } else {
      forall i | 0 <= i < |below| ensures below[i] <= ceiling {
        InOrder(sorted, i, half);
      }
    }
  }

  lemma InOrder(sorted: seq<U64>, i: nat, j: nat)
    requires SortedBy(sorted, Itself) && i <= j < |sorted|
    ensures sorted[i] <= sorted[j]
  {
    if i < j { assert Itself(sorted[i]) <= Itself(sorted[j]); }
  }
}
