/** Which regions are published again: each operation marks exactly the regions whose table it can change. */
module JitDirty {
  import opened Numbers
  import opened JitImages
  import JitPublish

  /** One of these symbols meets region `s`. */
  ghost predicate Met(regions: Regions, symbols: Symbols, waiting: seq<U64>, s: U64) {
    s in regions && exists o :: o in waiting && o in symbols && Overlaps(regions, s, o, symbols[o].end)
  }

  /** One of these symbols meets no region. */
  ghost predicate Waits(regions: Regions, symbols: Symbols, waiting: seq<U64>, o: U64) {
    o in waiting && o in symbols && !Touched(regions, o, symbols[o].end)
  }

  lemma MetOneMore(regions: Regions, symbols: Symbols, waiting: seq<U64>, s: U64)
    requires waiting != []
    ensures Met(regions, symbols, waiting, s)
       <==> || Met(regions, symbols, waiting[1..], s)
            || (s in regions && waiting[0] in symbols && Overlaps(regions, s, waiting[0], symbols[waiting[0]].end))
  {
    assert forall o :: o in waiting <==> o == waiting[0] || o in waiting[1..];
  }

  lemma WaitsOneMore(regions: Regions, symbols: Symbols, waiting: seq<U64>, o: U64)
    requires waiting != []
    ensures Waits(regions, symbols, waiting, o)
       <==> || Waits(regions, symbols, waiting[1..], o)
            || (o == waiting[0] && o in symbols && !Touched(regions, o, symbols[o].end))
  {
    assert forall o :: o in waiting <==> o == waiting[0] || o in waiting[1..];
  }

  // ----------------------------------------------------------------------------- a new symbol

  /**
   A symbol that is there already, with the same range and name, changes nothing. Any other one marks
   exactly the regions it meets, and waits if there is none; a range has at least one byte, as far as
   64 bits reach.
   */
  lemma AddSymbolExact(j: Jit, start: U64, size: U64, name: string)
    requires RegionsDisjoint(j.regions)
    ensures var j', end := AddSymbol(j, start, size, name), Min(U64_MAX, start + if size == 0 then 1 else size);
            if start in j.symbols && j.symbols[start] == Entry(end, name) then j' == j
            else
              && j'.regions == j.regions && j'.symbols == j.symbols[start := Entry(end, name)]
              && (forall s :: s in j'.dirty <==> s in j.dirty || (s in j.regions && Overlaps(j.regions, s, start, end)))
              && j'.orphans == if Touched(j.regions, start, end) then j.orphans else j.orphans + [start]
  {
    var end := EndOf(start, size);
    var j1 := j.(symbols := j.symbols[start := Entry(end, name)]);
    MeetsIsTouched(j1, start, end);
    forall s | s in MarkDirty(j1, start, end).dirty ensures s in j.dirty || s in j.regions {}
    hide Touched, Overlaps, Intersecting;
  }

  // ---------------------------------------------------------------------------------- a mapping

  lemma {:induction false} RecheckExact(j: Jit, waiting: seq<U64>)
    requires RegionsDisjoint(j.regions)
    ensures forall s :: s in Recheck(j, waiting).dirty <==> s in j.dirty || Met(j.regions, j.symbols, waiting, s)
    ensures forall o :: o in Recheck(j, waiting).orphans <==> o in j.orphans || Waits(j.regions, j.symbols, waiting, o)
    decreases |waiting|
  {
    if waiting != [] {
      var o, rest := waiting[0], waiting[1..];
      forall s ensures Met(j.regions, j.symbols, waiting, s)
                  <==> Met(j.regions, j.symbols, rest, s)
                       || (s in j.regions && o in j.symbols && Overlaps(j.regions, s, o, j.symbols[o].end)) {
        MetOneMore(j.regions, j.symbols, waiting, s);
      }
      forall p: U64 ensures Waits(j.regions, j.symbols, waiting, p)
                  <==> Waits(j.regions, j.symbols, rest, p)
                       || (p == o && p in j.symbols && !Touched(j.regions, p, j.symbols[p].end)) {
        WaitsOneMore(j.regions, j.symbols, waiting, p);
      }
      hide Met, Waits, Overlaps, Touched, MarkDirty, Meets, RegionsDisjoint;
      if o !in j.symbols {
        RecheckExact(j, rest);
      } else {
        var end := j.symbols[o].end;
        MarkedExactly(j, o, end);
        if Meets(j, o, end) {
          RecheckExact(MarkDirty(j, o, end), rest);
        } else {
          RecheckExact(j.(orphans := j.orphans + [o]), rest);
        }
      }
    }
  }

  lemma MarkedExactly(j: Jit, start: U64, end: U64)
    requires RegionsDisjoint(j.regions)
    ensures Meets(j, start, end) <==> Touched(j.regions, start, end)
    ensures !Meets(j, start, end) ==> forall s :: s in j.regions ==> !Overlaps(j.regions, s, start, end)
    ensures var m := MarkDirty(j, start, end);
            && m == j.(dirty := m.dirty)
            && forall s :: s in m.dirty <==> s in j.dirty || (s in j.regions && Overlaps(j.regions, s, start, end))
  {
    MeetsIsTouched(j, start, end);
    hide Overlaps, Intersecting;
  }

  /**
   A mapping marks exactly the regions it adds and those that a waiting symbol now meets; if it adds
   none, nothing changes. The symbols that still meet no region wait on.
   */
  lemma AddMappingExact(j: Jit, start: U64, end: U64)
    requires RegionsDisjoint(j.regions)
    ensures var j' := AddMapping(j, start, end);
            && j'.symbols == j.symbols
            && if j'.regions == j.regions then j' == j
               else
                 && (forall s :: s in j'.dirty <==>
                       || s in j.dirty || (s in j'.regions && s !in j.regions)
                       || Met(j'.regions, j.symbols, j.orphans, s))
                 && (forall o :: o in j'.orphans <==> Waits(j'.regions, j.symbols, j.orphans, o))
  {
    if start < end {
      AddMappingRegions(j, start, end);
      var gaps := GapsFor(j, start, end);
      NewStarts(j, start, end);
      var j1 := j.(regions := Added(j.regions, gaps), dirty := j.dirty + Starts(gaps));
      RecheckKeeps(j1.(orphans := []), j.orphans);
      hide Covered, GapsFor, Met, Waits, Starts, Added, Recheck;
      RecheckExact(j1.(orphans := []), j.orphans);
      if gaps == [] { NoneAdded(j.regions); }
      if j.orphans == [] { NoneWaiting(j1.regions, j.symbols); }
    }
  }

  lemma NoneAdded(regions: Regions)
    ensures Added(regions, []) == regions && Starts([]) == {}
  {
  }

  lemma NoneWaiting(regions: Regions, symbols: Symbols)
    ensures forall s :: !Met(regions, symbols, [], s)
    ensures forall o :: !Waits(regions, symbols, [], o)
  {
  }

  /** The gaps are where no region was. */
  lemma NewStarts(j: Jit, start: U64, end: U64)
    requires RegionsDisjoint(j.regions) && start < end
    ensures var gaps := GapsFor(j, start, end);
            (forall s :: s in Starts(gaps) ==> s !in j.regions) && (gaps != [] ==> Starts(gaps) != {})
  {
    var rs, gaps := Intersecting(j.regions, start, end), GapsFor(j, start, end);
    IntersectingAscends(j.regions, start, end);
    forall s: U64 ensures s in Starts(rs) <==> s in j.regions && Overlaps(j.regions, s, start, end) {
      IntersectingExact(j.regions, start, end, s);
    }
    GapsApart(j.regions, rs, start, end);
    if gaps != [] { assert gaps[0].0 in Starts(gaps); }
    forall s | s in Starts(gaps) ensures s !in j.regions {
      var i :| 0 <= i < |gaps| && gaps[i].0 == s;
      GapsExact(j.regions, rs, start, end, s);
      assert InSome(gaps, s);
    }
  }

  // --------------------------------------------------------------------------------- adoption

  /** Every symbol has a range, but for one at the very last address. */
  ghost predicate Ranged(symbols: Symbols) {
    forall o :: o in symbols ==> o < symbols[o].end || o == U64_MAX
  }

  lemma RangedKept(j: Jit, start: U64, size: U64, name: string)
    requires Ranged(j.symbols)
    ensures Ranged(AddSymbol(j, start, size, name).symbols)
  {
  }

  /** The address lies in the range of one of these symbols. */
  ghost predicate Spanned(symbols: Symbols, waiting: seq<U64>, x: int) {
    exists o :: o in waiting && o in symbols && o <= x < symbols[o].end
  }

  lemma SpannedOneMore(symbols: Symbols, waiting: seq<U64>, x: int)
    requires waiting != []
    ensures Spanned(symbols, waiting, x)
       <==> Spanned(symbols, waiting[1..], x) || (waiting[0] in symbols && waiting[0] <= x < symbols[waiting[0]].end)
  {
    assert forall o :: o in waiting <==> o == waiting[0] || o in waiting[1..];
  }

  /** A region that is added later does not meet a range that was covered before. */
  lemma CoveredStays(before: Regions, after: Regions, s: U64, start: U64, end: U64)
    requires RegionsDisjoint(after) && s in after && Overlaps(after, s, start, end) && (start < end || start == U64_MAX)
    requires forall t :: t in before ==> t in after && after[t] == before[t]
    requires forall x :: start <= x < end ==> Covered(before, x)
    ensures s in before
  {
    var x := if s < start then start else s;
    assert Covered(before, x);
    var t :| t in before && t <= x < before[t];
    assert t in after && after[t] == before[t];
  }

  /** One symbol adopted: its range is covered, and the regions that meet it are marked. */
  lemma AdoptOneExact(j: Jit, o: U64, end: U64)
    requires RegionsDisjoint(j.regions) && j.orphans == []
    ensures var j1 := MarkDirty(AddMapping(j, o, end), o, end);
            && RegionsDisjoint(j1.regions) && j1.orphans == [] && j1.symbols == j.symbols
            && (forall t :: t in j.regions ==> t in j1.regions && j1.regions[t] == j.regions[t])
            && (forall x :: Covered(j1.regions, x) <==> Covered(j.regions, x) || o <= x < end)
            && (forall s :: s in j1.dirty <==> s in j.dirty || (s in j1.regions && Overlaps(j1.regions, s, o, end)))
  {
    AddMappingRegions(j, o, end);
    AddMappingExact(j, o, end);
    var j0 := AddMapping(j, o, end);
    MarkedExactly(j0, o, end);
    NoneWaiting(j0.regions, j.symbols);
    hide Covered, AddMapping, MarkDirty, Overlaps, Met;
    forall s | s in j0.regions && s !in j.regions ensures Overlaps(j0.regions, s, o, end) {
      AddedInside(j.regions, j0.regions, o, end, s);
    }
  }

  lemma AddedInside(before: Regions, after: Regions, start: U64, end: U64, s: U64)
    requires RegionsDisjoint(after) && s in after && s !in before
    requires forall t :: t in before ==> t in after && after[t] == before[t]
    requires Covered(after, s) ==> Covered(before, s) || start <= s < end
    ensures Overlaps(after, s, start, end)
  {
    assert s < after[s] && Covered(after, s);
  }

  /**
   Adoption covers the ranges of the waiting symbols and no more, keeps all regions, and marks
   exactly the regions that one of those symbols meets.
   */
  lemma {:induction false} AdoptAllExact(j: Jit, waiting: seq<U64>)
    requires RegionsDisjoint(j.regions) && Ranged(j.symbols) && j.orphans == []
    ensures var j' := AdoptAll(j, waiting);
            && RegionsDisjoint(j'.regions) && j'.symbols == j.symbols && j'.orphans == []
            && (forall t :: t in j.regions ==> t in j'.regions && j'.regions[t] == j.regions[t])
            && (forall x :: Covered(j'.regions, x) <==> Covered(j.regions, x) || Spanned(j.symbols, waiting, x))
            && (forall s :: s in j'.dirty <==> s in j.dirty || Met(j'.regions, j.symbols, waiting, s))
    decreases |waiting|
  {
    if waiting != [] {
      var o, rest, j' := waiting[0], waiting[1..], AdoptAll(j, waiting);
      forall x ensures Spanned(j.symbols, waiting, x)
                  <==> Spanned(j.symbols, rest, x) || (o in j.symbols && o <= x < j.symbols[o].end) {
        SpannedOneMore(j.symbols, waiting, x);
      }
      forall s ensures Met(j'.regions, j.symbols, waiting, s)
                  <==> || Met(j'.regions, j.symbols, rest, s)
                       || (s in j'.regions && o in j.symbols && Overlaps(j'.regions, s, o, j.symbols[o].end)) {
        MetOneMore(j'.regions, j.symbols, waiting, s);
      }
      if o in j.symbols {
        var end := j.symbols[o].end;
        var j1 := MarkDirty(AddMapping(j, o, end), o, end);
        assert j' == AdoptAll(j1, rest) && (o < end || o == U64_MAX);
        hide Met, Spanned, Covered, Overlaps, AdoptAll, MarkDirty, AddMapping, RegionsDisjoint;
        AdoptOneExact(j, o, end);
        AdoptAllExact(j1, rest);
        forall s | s in j'.regions ensures s in j1.regions && Overlaps(j1.regions, s, o, end) <==> Overlaps(j'.regions, s, o, end) {
          MeetsAsBefore(j1.regions, j'.regions, s, o, end);
        }
      } else {
        hide Met, Spanned, Covered, RegionsDisjoint;
        AdoptAllExact(j, rest);
      }
    }
  }

  lemma MeetsAsBefore(before: Regions, after: Regions, s: U64, start: U64, end: U64)
    requires RegionsDisjoint(after) && s in after && (start < end || start == U64_MAX)
    requires forall t :: t in before ==> t in after && after[t] == before[t]
    requires forall x :: start <= x < end ==> Covered(before, x)
    ensures s in before && Overlaps(before, s, start, end) <==> Overlaps(after, s, start, end)
  {
    if Overlaps(after, s, start, end) { CoveredStays(before, after, s, start, end); }
  }

  lemma AdoptOrphansExact(j: Jit)
    requires RegionsDisjoint(j.regions) && Ranged(j.symbols)
    ensures var j' := AdoptOrphans(j);
            && j'.symbols == j.symbols && j'.orphans == []
            && (forall x :: Covered(j'.regions, x) <==> Covered(j.regions, x) || Spanned(j.symbols, j.orphans, x))
            && (forall s :: s in j'.dirty <==> s in j.dirty || Met(j'.regions, j.symbols, j.orphans, s))
  {
    AdoptAllExact(j.(orphans := []), j.orphans);
  }

  /** Over every run, harmless or not, the tracker's invariant holds and every symbol has a range. */
  lemma {:induction false} RunRanged(steps: seq<JitPublish.Step>)
    ensures Inv(JitPublish.Run(steps).jit) && Ranged(JitPublish.Run(steps).jit.symbols)
  {
    if steps != [] {
      hide Inv, Ranged, AddMapping, AddSymbol, AdoptOrphans;
      RunRanged(steps[..|steps| - 1]);
      var j := JitPublish.Run(steps[..|steps| - 1]).jit;
      match steps[|steps| - 1]
      case MapStep(start, end) =>
        AddMappingInv(j, start, end);
        MappingKeepsSymbols(j, start, end);
      case SymbolStep(start, size, name) =>
        AddSymbolInv(j, start, size, name);
        RangedKept(j, start, size, name);
      case AdoptStep => AdoptOrphansInv(j);
      case PublishStep => NothingDirty(j);
      case OtherImageStep(_) =>
    }
  }

  lemma MappingKeepsSymbols(j: Jit, start: U64, end: U64)
    requires Inv(j)
    ensures AddMapping(j, start, end).symbols == j.symbols
  {
    hide AddMapping, Met, Waits;
    AddMappingExact(j, start, end);
  }

  lemma NothingDirty(j: Jit)
    requires Inv(j)
    ensures Inv(j.(dirty := {}))
  {
  }
}
