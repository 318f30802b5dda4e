/**
 JIT code regions and the symbols that name them. Regions are disjoint and never move;
 a region whose symbol table may have changed is marked dirty and published again.
 The operations are functions on `Jit`; `JitTracker` performs them in place.
 */
module JitImages {
  import opened Numbers
  import opened Options

  /** End and name of the symbol that starts at the key. */
  datatype Entry = Entry(end: U64, name: string)

  type Regions = map<U64, U64>
  type Symbols = map<U64, Entry>

  datatype Jit = Jit(regions: Regions, symbols: Symbols, dirty: set<U64>, orphans: seq<U64>)

  const EMPTY := Jit(map[], map[], {}, [])

  // ------------------------------------------------------------------ ordered map access

  ghost predicate IsLastBelow(keys: set<U64>, hi: int, k: U64) {
    k in keys && k < hi && forall j :: j in keys && j < hi ==> j <= k
  }

  lemma {:induction false} LastBelowExists(keys: set<U64>, hi: int)
    requires exists k :: k in keys && k < hi
    ensures exists k :: IsLastBelow(keys, hi, k)
    decreases keys
  {
    var k :| k in keys && k < hi;
    if j :| j in keys && k < j < hi {
      assert j in keys - {k};
      LastBelowExists(keys - {k}, hi);
      var m :| IsLastBelow(keys - {k}, hi, m);
      forall i | i in keys && i < hi ensures i <= m {
        assert i == k || i in keys - {k};
      }
      assert IsLastBelow(keys, hi, m);
    } else {
      assert IsLastBelow(keys, hi, k);
    }
  }

  /** The largest key below `hi`. */
  function LastBelow(keys: set<U64>, hi: int): (r: Option<U64>)
    ensures r.None? ==> forall k :: k in keys ==> hi <= k
    ensures r.Some? ==> IsLastBelow(keys, hi, r.value)
  {
    if exists k :: k in keys && k < hi then
      LastBelowExists(keys, hi);
      var k :| k in keys && k < hi && forall j :: j in keys && j < hi ==> j <= k;
      Some(k)
    else None
  }

  // -------------------------------------------------------------------------- the regions

  /**
   Regions meeting `[start, hi)`, ascending: walk back from the last region that starts
   before `hi` until one ends at or before `start`.
   */
  function Intersecting(regions: Regions, start: U64, hi: U64): seq<(U64, U64)>
    decreases hi
  {
    match LastBelow(regions.Keys, hi)
    case None => []
    case Some(k) =>
      if regions[k] <= start then []
      else Intersecting(regions, start, k) + [(k, regions[k])]
  }

  /** The parts of `[cursor, end)` between the given regions. */
  function Gaps(hits: seq<(U64, U64)>, cursor: U64, end: U64): seq<(U64, U64)> {
    if hits == [] then (if cursor < end then [(cursor, end)] else [])
    else
      (if hits[0].0 > cursor then [(cursor, hits[0].0)] else [])
      + Gaps(hits[1..], Max(cursor, hits[0].1), end)
  }

  function Starts(rs: seq<(U64, U64)>): set<U64> {
    set r | r in rs :: r.0
  }

  function Added(regions: Regions, gaps: seq<(U64, U64)>): Regions
    decreases |gaps|
  {
    if gaps == [] then regions else Added(regions[gaps[0].0 := gaps[0].1], gaps[1..])
  }

  // ------------------------------------------------------------------------ the operations

  /** Every region meeting `[start, end)` becomes dirty. */
  function MarkDirty(j: Jit, start: U64, end: U64): Jit {
    j.(dirty := j.dirty + Starts(Intersecting(j.regions, start, end)))
  }

  predicate Meets(j: Jit, start: U64, end: U64) {
    Intersecting(j.regions, start, end) != []
  }

  /** Symbols waiting for a region: those that now meet one mark it, the others keep waiting. */
  function Recheck(j: Jit, waiting: seq<U64>): Jit
    decreases |waiting|
  {
    if waiting == [] then j
    else
      var sym := waiting[0];
      if sym !in j.symbols then Recheck(j, waiting[1..])
      else if Meets(j, sym, j.symbols[sym].end) then
        Recheck(MarkDirty(j, sym, j.symbols[sym].end), waiting[1..])
      else Recheck(j.(orphans := j.orphans + [sym]), waiting[1..])
  }

  function GapsFor(j: Jit, start: U64, end: U64): seq<(U64, U64)> {
    Gaps(Intersecting(j.regions, start, end), start, end)
  }

  function AddMapping(j: Jit, start: U64, end: U64): Jit {
    if end <= start then j
    else
      var gaps := GapsFor(j, start, end);
      var j1 := j.(regions := Added(j.regions, gaps), dirty := j.dirty + Starts(gaps));
      if gaps != [] && j.orphans != [] then Recheck(j1.(orphans := []), j.orphans) else j1
  }

  function EndOf(start: U64, size: U64): U64 {
    SatAdd(start, Max(size, 1))
  }

  function AddSymbol(j: Jit, start: U64, size: U64, name: string): Jit {
    var entry := Entry(EndOf(start, size), name);
    if start in j.symbols && j.symbols[start] == entry then j
    else
      var j1 := j.(symbols := j.symbols[start := entry]);
      if Meets(j1, start, entry.end) then MarkDirty(j1, start, entry.end)
      else j1.(orphans := j1.orphans + [start])
  }

  function AdoptAll(j: Jit, waiting: seq<U64>): Jit
    decreases |waiting|
  {
    if waiting == [] then j
    else
      var sym := waiting[0];
      if sym !in j.symbols then AdoptAll(j, waiting[1..])
      else
        var end := j.symbols[sym].end;
        AdoptAll(MarkDirty(AddMapping(j, sym, end), sym, end), waiting[1..])
  }

  function AdoptOrphans(j: Jit): Jit {
    AdoptAll(j.(orphans := []), j.orphans).(orphans := [])
  }

  // ------------------------------------------------------------------------ what is invariant

  ghost predicate RegionsDisjoint(regions: Regions) {
    && (forall s :: s in regions ==> s < regions[s])
    && (forall s, t :: s in regions && t in regions && s < t ==> regions[s] <= t)
  }

  predicate Overlaps(regions: Regions, s: U64, start: int, end: int)
    requires s in regions
  {
    s < end && start < regions[s]
  }

  /** Some region meets the range. */
  ghost predicate Touched(regions: Regions, start: int, end: int) {
    exists s :: s in regions && Overlaps(regions, s, start, end)
  }

  ghost predicate Covered(regions: Regions, x: int) {
    exists s :: s in regions && s <= x < regions[s]
  }

  /** The orphan list misses no symbol with a non-empty range that meets no region. */
  ghost predicate OrphansComplete(j: Jit, waiting: seq<U64>) {
    forall s :: s in j.symbols && s < j.symbols[s].end && !Touched(j.regions, s, j.symbols[s].end) ==>
      s in j.orphans || s in waiting
  }

  ghost predicate Inv(j: Jit) {
    && RegionsDisjoint(j.regions)
    && j.dirty <= j.regions.Keys
    && OrphansComplete(j, [])
  }

  // ------------------------------------------------------------------ the region algorithms

  /** A list of regions: some of those in the map, ascending. */
  ghost predicate Ascending(regions: Regions, rs: seq<(U64, U64)>) {
    && (forall r :: r in rs ==> r.0 in regions && regions[r.0] == r.1)
    && (forall i, j :: 0 <= i < j < |rs| ==> rs[i].0 < rs[j].0)
  }

  lemma StartsConcat(a: seq<(U64, U64)>, b: seq<(U64, U64)>)
    ensures Starts(a + b) == Starts(a) + Starts(b)
  {
    assert forall r :: r in a + b <==> r in a || r in b;
  }

  lemma {:induction false} IntersectingAscends(regions: Regions, start: U64, hi: U64)
    ensures Ascending(regions, Intersecting(regions, start, hi))
    ensures forall i :: 0 <= i < |Intersecting(regions, start, hi)| ==> Intersecting(regions, start, hi)[i].0 < hi
    decreases hi
  {
    var last := LastBelow(regions.Keys, hi);
    if last.Some? && regions[last.value] > start {
      IntersectingAscends(regions, start, last.value);
    }
  }

  /** On disjoint regions the walk back finds exactly the regions that meet the range. */
  lemma {:induction false} IntersectingExact(regions: Regions, start: U64, hi: U64, s: U64)
    requires RegionsDisjoint(regions)
    ensures s in Starts(Intersecting(regions, start, hi)) <==> s in regions && Overlaps(regions, s, start, hi)
    decreases hi
  {
    var last := LastBelow(regions.Keys, hi);
    if last.Some? {
      var k := last.value;
      if regions[k] > start {
        IntersectingExact(regions, start, k, s);
        StartsConcat(Intersecting(regions, start, k), [(k, regions[k])]);
        assert forall r :: r in [(k, regions[k])] <==> r == (k, regions[k]);
      }
    }
  }

  lemma MeetsIsTouched(j: Jit, start: U64, end: U64)
    requires RegionsDisjoint(j.regions)
    ensures Meets(j, start, end) <==> Touched(j.regions, start, end)
    ensures forall s :: s in j.regions ==>
              (s in MarkDirty(j, start, end).dirty <==> s in j.dirty || Overlaps(j.regions, s, start, end))
    ensures MarkDirty(j, start, end).dirty <= j.dirty + j.regions.Keys
  {
    var rs := Intersecting(j.regions, start, end);
    forall s: U64 ensures s in Starts(rs) <==> s in j.regions && Overlaps(j.regions, s, start, end) {
      IntersectingExact(j.regions, start, end, s);
    }
    if rs != [] {
      assert rs[0].0 in Starts(rs);
    }
  }

  // ------------------------------------------------------------------------------ the gaps

  /** `rs` is the ascending list of the regions that meet `[c, end)`. */
  ghost predicate Lists(regions: Regions, rs: seq<(U64, U64)>, c: int, end: int) {
    Ascending(regions, rs) && forall s :: s in regions ==> ((s, regions[s]) in rs <==> Overlaps(regions, s, c, end))
  }

  /** Non-empty ranges, ascending and apart, inside `[c, end)`. */
  ghost predicate Apart(gaps: seq<(U64, U64)>, c: int, end: int) {
    && (forall i :: 0 <= i < |gaps| ==> c <= gaps[i].0 < gaps[i].1 <= end)
    && (forall i, k :: 0 <= i < k < |gaps| ==> gaps[i].1 <= gaps[k].0)
  }

  ghost predicate InSome(gaps: seq<(U64, U64)>, x: int) {
    exists i :: 0 <= i < |gaps| && gaps[i].0 <= x < gaps[i].1
  }

  lemma ListsRest(regions: Regions, rs: seq<(U64, U64)>, c: int, end: int)
    requires RegionsDisjoint(regions) && Lists(regions, rs, c, end) && rs != []
    ensures rs[0] in rs && rs[0].1 > c && rs[0].0 < end
    ensures Lists(regions, rs[1..], rs[0].1, end)
    ensures forall t :: t in regions && Overlaps(regions, t, c, end) ==> rs[0].0 <= t
  {
    assert rs[0] in rs && rs[0] == (rs[0].0, regions[rs[0].0]);
    assert forall r :: r in rs <==> r == rs[0] || r in rs[1..];
    assert forall r :: r in rs[1..] ==> rs[0].0 < r.0;
    forall s | s in regions ensures (s, regions[s]) in rs[1..] <==> Overlaps(regions, s, rs[0].1, end) {
      assert (s, regions[s]) in rs <==> Overlaps(regions, s, c, end);
    }
  }

  lemma {:induction false} GapsApart(regions: Regions, rs: seq<(U64, U64)>, c: U64, end: U64)
    requires RegionsDisjoint(regions) && Lists(regions, rs, c, end)
    ensures Apart(Gaps(rs, c, end), c, end)
  {
    if rs != [] {
      ListsRest(regions, rs, c, end);
      GapsApart(regions, rs[1..], Max(c, rs[0].1), end);
    }
  }

  lemma InSomeConcat(a: seq<(U64, U64)>, b: seq<(U64, U64)>, x: int)
    ensures InSome(a + b, x) <==> InSome(a, x) || InSome(b, x)
  {
    if i :| 0 <= i < |a| && a[i].0 <= x < a[i].1 { assert (a + b)[i] == a[i]; }
    if i :| 0 <= i < |b| && b[i].0 <= x < b[i].1 { assert (a + b)[|a| + i] == b[i]; }
  }

  /** The gaps are exactly the uncovered part of the range. */
  lemma {:induction false} GapsExact(regions: Regions, rs: seq<(U64, U64)>, c: U64, end: U64, x: int)
    requires RegionsDisjoint(regions) && Lists(regions, rs, c, end)
    ensures InSome(Gaps(rs, c, end), x) <==> c <= x < end && !Covered(regions, x)
  {
    if rs == [] {
      assert forall s :: s in regions ==> !Overlaps(regions, s, c, end);
      if c < end { assert [(c, end)][0].0 == c; }
    } else {
      ListsRest(regions, rs, c, end);
      var s, e := rs[0].0, rs[0].1;
      GapsExact(regions, rs[1..], Max(c, e), end, x);
      var g := if s > c then [(c, s)] else [];
      InSomeConcat(g, Gaps(rs[1..], Max(c, e), end), x);
      assert InSome(g, x) <==> c <= x < s by { if s > c { assert g[0] == (c, s); } }
      assert s <= x < e ==> Covered(regions, x);
      assert c <= x < s && x < end ==> !Covered(regions, x);
    }
  }

  /** Adding apart, uncovered ranges keeps the regions disjoint and leaves the old ones alone. */
  lemma {:induction false} AddedFacts(regions: Regions, gaps: seq<(U64, U64)>, c: int, end: int)
    requires RegionsDisjoint(regions) && Apart(gaps, c, end)
    requires forall x :: InSome(gaps, x) ==> !Covered(regions, x)
    ensures RegionsDisjoint(Added(regions, gaps))
    ensures forall s :: s in regions ==> s in Added(regions, gaps) && Added(regions, gaps)[s] == regions[s]
    ensures Added(regions, gaps).Keys == regions.Keys + Starts(gaps)
    ensures forall x :: Covered(Added(regions, gaps), x) <==> Covered(regions, x) || InSome(gaps, x)
    decreases |gaps|
  {
    hide Covered, Apart, RegionsDisjoint;
    if gaps != [] {
      assert Added(regions, gaps) == Added(regions[gaps[0].0 := gaps[0].1], gaps[1..]);
      hide Added, Starts, InSome;
      var a, b := gaps[0].0, gaps[0].1;
      var r1 := regions[a := b];
      ApartRest(gaps, c, end);
      AddOneRegion(regions, a, b, gaps);
      forall x ensures InSome(gaps, x) <==> a <= x < b || InSome(gaps[1..], x) {
        InSomeFirst(gaps, c, end, x);
      }
      forall x: int | InSome(gaps[1..], x) ensures !Covered(r1, x) {
        InSomeFirst(gaps, c, end, x);
      }
      AddedFacts(r1, gaps[1..], c, end);
      StartsRest(gaps);
      forall x ensures Covered(Added(regions, gaps), x) <==> Covered(regions, x) || InSome(gaps, x) {
        assert Covered(r1, x) <==> Covered(regions, x) || a <= x < b;
        assert InSome(gaps, x) <==> a <= x < b || InSome(gaps[1..], x);
      }
    }
  }

  lemma StartsRest(gaps: seq<(U64, U64)>)
    requires gaps != []
    ensures Starts(gaps) == {gaps[0].0} + Starts(gaps[1..])
  {
    assert forall r :: r in gaps <==> r == gaps[0] || r in gaps[1..];
  }

  lemma ApartRest(gaps: seq<(U64, U64)>, c: int, end: int)
    requires gaps != [] && Apart(gaps, c, end)
    ensures gaps[0].0 < gaps[0].1 && Apart(gaps[1..], c, end)
  {
  }

  lemma InSomeFirst(gaps: seq<(U64, U64)>, c: int, end: int, x: int)
    requires gaps != [] && Apart(gaps, c, end)
    ensures InSome(gaps, x) <==> gaps[0].0 <= x < gaps[0].1 || InSome(gaps[1..], x)
    ensures InSome(gaps[1..], x) ==> gaps[0].1 <= x
  {
    if i :| 0 <= i < |gaps[1..]| && gaps[1..][i].0 <= x < gaps[1..][i].1 {
      assert gaps[i + 1] == gaps[1..][i];
    }
    if i :| 1 <= i < |gaps| && gaps[i].0 <= x < gaps[i].1 {
      assert gaps[1..][i - 1] == gaps[i];
    }
  }

  lemma AddOneRegion(regions: Regions, a: U64, b: U64, gaps: seq<(U64, U64)>)
    requires RegionsDisjoint(regions) && gaps != [] && gaps[0] == (a, b)
    requires a < b
    requires forall x :: InSome(gaps, x) ==> !Covered(regions, x)
    ensures a !in regions && RegionsDisjoint(regions[a := b])
    ensures forall x :: Covered(regions[a := b], x) <==> Covered(regions, x) || a <= x < b
  {
    forall s | s in regions ensures s != a && (s < a ==> regions[s] <= a) && (a < s ==> b <= s) {
      assert InSome(gaps, a) && (a < s < b ==> InSome(gaps, s));
      assert Covered(regions, s);
    }
    var r1 := regions[a := b];
    forall x ensures Covered(r1, x) <==> Covered(regions, x) || a <= x < b {
      if s :| s in regions && s <= x < regions[s] { assert s in r1; }
      assert a in r1 && r1[a] == b;
    }
  }

  /**
   A reported mapping adds exactly the part of its range that no region covered, and no
   region that was there moves or changes its size.
   */
  lemma AddMappingRegions(j: Jit, start: U64, end: U64)
    requires RegionsDisjoint(j.regions)
    ensures var r := AddMapping(j, start, end).regions;
            && RegionsDisjoint(r)
            && (forall s :: s in j.regions ==> s in r && r[s] == j.regions[s])
            && (forall x :: Covered(r, x) <==> Covered(j.regions, x) || start <= x < end)
            && (start < end ==> r.Keys == j.regions.Keys + Starts(GapsFor(j, start, end)))
  {
    if start < end {
      var rs, gaps := Intersecting(j.regions, start, end), GapsFor(j, start, end);
      IntersectingAscends(j.regions, start, end);
      forall s: U64 ensures s in Starts(rs) <==> s in j.regions && Overlaps(j.regions, s, start, end) {
        IntersectingExact(j.regions, start, end, s);
      }
      GapsApart(j.regions, rs, start, end);
      forall x ensures InSome(gaps, x) <==> start <= x < end && !Covered(j.regions, x) {
        GapsExact(j.regions, rs, start, end, x);
      }
      AddedFacts(j.regions, gaps, start, end);
      RecheckKeeps(j.(regions := Added(j.regions, gaps), dirty := j.dirty + Starts(gaps), orphans := []), j.orphans);
    }
  }

  lemma {:induction false} RecheckKeeps(j: Jit, waiting: seq<U64>)
    ensures Recheck(j, waiting).regions == j.regions && Recheck(j, waiting).symbols == j.symbols
    ensures j.dirty <= Recheck(j, waiting).dirty
    decreases |waiting|
  {
    if waiting != [] {
      var sym := waiting[0];
      if sym !in j.symbols {
        RecheckKeeps(j, waiting[1..]);
      } else if Meets(j, sym, j.symbols[sym].end) {
        RecheckKeeps(MarkDirty(j, sym, j.symbols[sym].end), waiting[1..]);
      } else {
        RecheckKeeps(j.(orphans := j.orphans + [sym]), waiting[1..]);
      }
    }
  }

  // ---------------------------------------------------------------------- the invariant

  /** Re-checking the waiting symbols forgets none that still meets no region. */
  lemma {:induction false} RecheckComplete(j: Jit, waiting: seq<U64>)
    requires RegionsDisjoint(j.regions) && j.dirty <= j.regions.Keys && OrphansComplete(j, waiting)
    ensures Inv(Recheck(j, waiting))
    decreases |waiting|
  {
    if waiting != [] {
      var sym := waiting[0];
      if sym !in j.symbols {
        RecheckComplete(j, waiting[1..]);
      } else {
        MeetsIsTouched(j, sym, j.symbols[sym].end);
        if Meets(j, sym, j.symbols[sym].end) {
          RecheckComplete(MarkDirty(j, sym, j.symbols[sym].end), waiting[1..]);
        } else {
          RecheckComplete(j.(orphans := j.orphans + [sym]), waiting[1..]);
        }
      }
    }
  }

  lemma TouchedGrows(r: Regions, r': Regions, start: int, end: int)
    requires forall s :: s in r ==> s in r' && r'[s] == r[s]
    ensures Touched(r, start, end) ==> Touched(r', start, end)
  {
    if s :| s in r && Overlaps(r, s, start, end) {
      assert Overlaps(r', s, start, end);
    }
  }

  lemma AddMappingInv(j: Jit, start: U64, end: U64)
    requires Inv(j)
    ensures Inv(AddMapping(j, start, end))
  {
    if start < end {
      hide Covered, Touched;
      AddMappingRegions(j, start, end);
      var gaps := GapsFor(j, start, end);
      var j1 := j.(regions := Added(j.regions, gaps), dirty := j.dirty + Starts(gaps));
      RecheckKeeps(j1.(orphans := []), j.orphans);
      forall s | s in j.symbols && !Touched(j1.regions, s, j.symbols[s].end)
        ensures !Touched(j.regions, s, j.symbols[s].end)
      {
        TouchedGrows(j.regions, j1.regions, s, j.symbols[s].end);
      }
      if gaps != [] && j.orphans != [] {
        RecheckComplete(j1.(orphans := []), j.orphans);
      }
    }
  }

  lemma AddSymbolInv(j: Jit, start: U64, size: U64, name: string)
    requires Inv(j)
    ensures Inv(AddSymbol(j, start, size, name))
  {
    hide Touched;
    var end := EndOf(start, size);
    MeetsIsTouched(j.(symbols := j.symbols[start := Entry(end, name)]), start, end);
  }

  /** While orphans are adopted, `waiting` lists every symbol that still meets no region. */
  lemma {:induction false} AdoptAllInv(j: Jit, waiting: seq<U64>)
    requires RegionsDisjoint(j.regions) && j.dirty <= j.regions.Keys && OrphansComplete(j, waiting) && j.orphans == []
    ensures var j' := AdoptAll(j, waiting);
            Inv(j') && j'.orphans == [] && j'.symbols == j.symbols
            && forall s :: s in j.regions ==> s in j'.regions && j'.regions[s] == j.regions[s]
    decreases |waiting|
  {
    if waiting != [] {
      var sym := waiting[0];
      if sym !in j.symbols {
        AdoptAllInv(j, waiting[1..]);
      } else {
        var end := j.symbols[sym].end;
        var j1 := MarkDirty(AddMapping(j, sym, end), sym, end);
        AdoptOneInv(j, sym, waiting);
        AdoptAllInv(j1, waiting[1..]);
      }
    }
  }

  lemma AdoptOneInv(j: Jit, sym: U64, waiting: seq<U64>)
    requires RegionsDisjoint(j.regions) && j.dirty <= j.regions.Keys && OrphansComplete(j, waiting) && j.orphans == []
    requires waiting != [] && waiting[0] == sym && sym in j.symbols
    ensures var j1 := MarkDirty(AddMapping(j, sym, j.symbols[sym].end), sym, j.symbols[sym].end);
            && RegionsDisjoint(j1.regions) && j1.dirty <= j1.regions.Keys && OrphansComplete(j1, waiting[1..])
            && j1.orphans == [] && j1.symbols == j.symbols
            && forall s :: s in j.regions ==> s in j1.regions && j1.regions[s] == j.regions[s]
  {
    var end := j.symbols[sym].end;
    var j0 := AddMapping(j, sym, end);
    AddMappingRegions(j, sym, end);
    MeetsIsTouched(j0, sym, end);
    if sym < end {
      assert Covered(j0.regions, sym);
      var t :| t in j0.regions && t <= sym < j0.regions[t];
      assert Overlaps(j0.regions, t, sym, end);
    }
    forall s | s in j.symbols && s < j.symbols[s].end && !Touched(j0.regions, s, j.symbols[s].end)
      ensures s in waiting[1..]
    {
      TouchedGrows(j.regions, j0.regions, s, j.symbols[s].end);
    }
  }

  /** After adopting, every symbol with a non-empty range meets a region and nothing waits. */
  lemma AdoptOrphansInv(j: Jit)
    requires Inv(j)
    ensures Inv(AdoptOrphans(j)) && AdoptOrphans(j).orphans == [] && AdoptOrphans(j).symbols == j.symbols
    ensures forall s :: s in j.regions ==> s in AdoptOrphans(j).regions && AdoptOrphans(j).regions[s] == j.regions[s]
    ensures forall s :: s in j.symbols && s < j.symbols[s].end ==> Touched(AdoptOrphans(j).regions, s, j.symbols[s].end)
  {
    AdoptAllInv(j.(orphans := []), j.orphans);
  }
}
