/**
 The symbol table a JIT region is published with, and when a published table is still the
 one that would be computed now.
 */
module JitTables {
  import opened Numbers
  import opened Options
  import opened Sorting
  import opened Registry
  import opened JitImages

  function SymbolAt(symbols: Symbols, s: U64): Symbol
    requires s in symbols
  {
    Symbol(s, symbols[s].end, symbols[s].name)
  }

  /** The symbols that start in `[lo, hi)`, ascending. */
  function InRange(symbols: Symbols, lo: U64, hi: U64): (t: seq<Symbol>)
    ensures forall i :: 0 <= i < |t| ==> lo <= t[i].start < hi && t[i].start in symbols && t[i] == SymbolAt(symbols, t[i].start)
    ensures forall i, j :: 0 <= i < j < |t| ==> t[i].start < t[j].start
    decreases hi
  {
    match LastBelow(symbols.Keys, hi)
    case None => []
    case Some(k) => if k < lo then [] else InRange(symbols, lo, k) + [SymbolAt(symbols, k)]
  }

  /** The last symbol that starts before `start`, if it runs past it. */
  function Head(symbols: Symbols, start: U64): seq<Symbol> {
    match LastBelow(symbols.Keys, start)
    case None => []
    case Some(p) => if symbols[p].end > start then [SymbolAt(symbols, p)] else []
  }

  /** The table of the region `[start, end)`, computed from scratch. */
  function TableOf(symbols: Symbols, start: U64, end: U64): seq<Symbol> {
    Head(symbols, start) + InRange(symbols, start, end)
  }

  lemma {:induction false} InRangeHas(symbols: Symbols, lo: U64, hi: U64, k: U64)
    requires k in symbols && lo <= k < hi
    ensures SymbolAt(symbols, k) in InRange(symbols, lo, hi)
    decreases hi
  {
    var last := LastBelow(symbols.Keys, hi).value;
    if k < last {
      InRangeHas(symbols, lo, last, k);
    }
  }

  lemma {:induction false} InRangeSame(a: Symbols, b: Symbols, lo: U64, hi: U64)
    requires forall k :: lo <= k < hi ==> (k in a <==> k in b) && (k in a ==> a[k] == b[k])
    ensures InRange(a, lo, hi) == InRange(b, lo, hi)
    decreases hi
  {
    var l, m := LastBelow(a.Keys, hi), LastBelow(b.Keys, hi);
    if l.Some? && l.value >= lo {
      assert l.value in b;
      assert m.Some? && m.value in a;
      InRangeSame(a, b, lo, l.value);
    }
  }

  /** The new symbol takes the place of the one that ran into the region, and does not reach it. */
  predicate HidesHead(symbols: Symbols, region: U64, start: U64, end: U64) {
    && start < region && end <= region
    && Head(symbols, region) != [] && Head(symbols, region)[0].start <= start
  }

  /**
   When a new or replaced symbol leaves a region clean, the region's table is unchanged
   exactly when the symbol does not hide the one running into the region.
   */
  lemma CleanTableUnchanged(symbols: Symbols, region: U64, regionEnd: U64, start: U64, end: U64, name: string)
    requires region < regionEnd && start <= end && (start == end ==> regionEnd <= start)
    requires !(region < end && start < regionEnd)
    ensures TableOf(symbols[start := Entry(end, name)], region, regionEnd) == TableOf(symbols, region, regionEnd)
       <==> !HidesHead(symbols, region, start, end)
  {
    var symbols' := symbols[start := Entry(end, name)];
    InRangeSame(symbols, symbols', region, regionEnd);
    hide InRange, HidesHead, Head;
    if start < region {
      HeadAfterEarlier(symbols, region, start, end, name);
    } else {
      HeadAfterLater(symbols, region, start, end, name);
    }
    SameEnd(Head(symbols, region), Head(symbols', region), InRange(symbols, region, regionEnd));
  }

  lemma HeadAfterEarlier(symbols: Symbols, region: U64, start: U64, end: U64, name: string)
    requires start < region && end <= region
    ensures Head(symbols[start := Entry(end, name)], region) == Head(symbols, region) <==> !HidesHead(symbols, region, start, end)
  {
    var symbols' := symbols[start := Entry(end, name)];
    var p, p' := LastBelow(symbols.Keys, region), LastBelow(symbols'.Keys, region);
    assert start in symbols'.Keys;
    assert p.Some? ==> p.value in symbols'.Keys;
    assert p'.Some? && p'.value == if p.Some? && p.value > start then p.value else start;
  }

  lemma HeadAfterLater(symbols: Symbols, region: U64, start: U64, end: U64, name: string)
    requires region <= start
    ensures Head(symbols[start := Entry(end, name)], region) == Head(symbols, region) && !HidesHead(symbols, region, start, end)
  {
    var symbols' := symbols[start := Entry(end, name)];
    var p, p' := LastBelow(symbols.Keys, region), LastBelow(symbols'.Keys, region);
    assert p.Some? ==> p.value in symbols'.Keys;
    assert p'.Some? ==> p'.value in symbols.Keys;
    assert p == p';
  }

  lemma SameEnd<T>(a: seq<T>, b: seq<T>, end: seq<T>)
    ensures a + end == b + end <==> a == b
  {
    if a + end == b + end {
      assert |a| == |b|;
      assert a == (a + end)[..|a|] && b == (b + end)[..|b|];
    }
  }

  /** No two symbols overlap. */
  ghost predicate SymbolsDisjoint(symbols: Symbols) {
    forall s, t :: s in symbols && t in symbols && s < t ==> symbols[s].end <= t
  }

  /** What keeps published tables fresh: ranges stay disjoint and a replacement is never shorter. */
  ghost predicate Orderly(symbols: Symbols, start: U64, size: U64, name: string) {
    && SymbolsDisjoint(symbols[start := Entry(EndOf(start, size), name)])
    && (start in symbols ==> symbols[start].end <= EndOf(start, size))
  }

  lemma OrderlyHidesNothing(symbols: Symbols, start: U64, size: U64, name: string, region: U64)
    requires Orderly(symbols, start, size, name)
    ensures !HidesHead(symbols, region, start, EndOf(start, size))
  {
    var p := LastBelow(symbols.Keys, region);
    var symbols' := symbols[start := Entry(EndOf(start, size), name)];
    if p.Some? && p.value < start {
      assert p.value in symbols' && start in symbols' && symbols'[p.value].end <= start;
    }
  }

  // ----------------------------------------------------------------------- naming an address

  predicate Covers(symbols: Symbols, s: U64, x: U64) {
    s in symbols && s <= x < symbols[s].end
  }

  lemma TableMembers(symbols: Symbols, start: U64, end: U64)
    requires start < end
    ensures var t := TableOf(symbols, start, end);
            && (forall i :: 0 <= i < |t| ==> t[i].start in symbols && t[i] == SymbolAt(symbols, t[i].start))
            && (forall i, j :: 0 <= i < j < |t| ==> t[i].start < t[j].start)
  {
  }

  /** The symbol an address goes by: the last one that starts at or below it, if it reaches that far. */
  function NameAt(symbols: Symbols, x: U64): Option<U64> {
    match LastBelow(symbols.Keys, x + 1)
    case None => None
    case Some(k) => if x < symbols[k].end then Some(k) else None
  }

  /** Among disjoint symbols the one that an address goes by is the one that covers it. */
  lemma NameIsCover(symbols: Symbols, x: U64)
    requires SymbolsDisjoint(symbols)
    ensures match NameAt(symbols, x)
            case Some(k) => Covers(symbols, k, x)
            case None => forall k :: !Covers(symbols, k, x)
  {
    if k: U64 :| Covers(symbols, k, x) {
      assert k in symbols.Keys && k < x + 1;
      assert LastBelow(symbols.Keys, x + 1).Some?;
    }
  }

  /** The last symbol at or below the address is in the table, or ends before the region and nothing else answers. */
  lemma LastInTable(symbols: Symbols, start: U64, end: U64, x: U64, m: U64)
    requires start <= x < end && LastBelow(symbols.Keys, x + 1) == Some(m)
    ensures SymbolAt(symbols, m) in TableOf(symbols, start, end)
         || (symbols[m].end <= x && forall e :: e in TableOf(symbols, start, end) ==> x < e.start)
  {
    if m < start {
      assert LastBelow(symbols.Keys, start) == Some(m);
    } else {
      InRangeHas(symbols, start, end, m);
    }
  }

  /** In an ascending table the search decides by the last symbol that starts at or below the address. */
  lemma LastStartOf(symbols: Symbols, t: seq<Symbol>, x: U64, i: nat)
    requires forall k :: 0 <= k < |t| ==> t[k].start in symbols && t[k] == SymbolAt(symbols, t[k].start)
    requires forall k, l :: 0 <= k < l < |t| ==> t[k].start < t[l].start
    requires i < |t| && LastBelow(symbols.Keys, x + 1) == Some(t[i].start)
    ensures LastStart(t, x) == if x < symbols[t[i].start].end then Some(i) else None
  {
    PartitionPointSplits(t, SymbolStart(), x);
    var k := PartitionPoint(t, SymbolStart(), x);
    hide PartitionPoint;
    assert SymbolStart()(t[i]) == t[i].start;
    assert i < k;
    assert SymbolStart()(t[k - 1]) == t[k - 1].start <= x;
    assert t[k - 1].start in symbols.Keys;
  }

  lemma NoStartBelow(t: seq<Symbol>, x: U64)
    requires forall e :: e in t ==> x < e.start
    ensures LastStart(t, x).None?
  {
    assert forall k :: 0 <= k < |t| ==> SymbolStart()(t[k]) == t[k].start;
  }

  /** Searching a region's table, overlaps or not, finds the symbol the address goes by, or that it has none. */
  lemma TableNames(symbols: Symbols, start: U64, end: U64, x: U64)
    requires start <= x < end
    ensures var t := TableOf(symbols, start, end);
            match LastStart(t, x)
            case Some(i) => i < |t| && NameAt(symbols, x) == Some(t[i].start) && t[i] == SymbolAt(symbols, t[i].start)
            case None => NameAt(symbols, x).None?
  {
    hide TableOf, LastStart;
    var t, last := TableOf(symbols, start, end), LastBelow(symbols.Keys, x + 1);
    TableMembers(symbols, start, end);
    if last.Some? && SymbolAt(symbols, last.value) in t {
      var i :| 0 <= i < |t| && t[i] == SymbolAt(symbols, last.value);
      LastStartOf(symbols, t, x, i);
    } else {
      forall e | e in t ensures x < e.start {
        assert e.start in symbols.Keys;
        if last.Some? { LastInTable(symbols, start, end, x, last.value); }
      }
      NoStartBelow(t, x);
      if last.Some? { LastInTable(symbols, start, end, x, last.value); }
    }
  }
}
