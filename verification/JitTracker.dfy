/** The JIT tracker in place: the fields it updates and the loops it runs. */
module JitTracker {
  import opened Numbers
  import opened Registry
  import opened JitImages
  import opened JitTables
  import opened JitPublish

  class Images {
    var regions: Regions
    var symbols: Symbols
    var dirty: set<U64>
    var orphans: seq<U64>

    ghost function State(): Jit
      reads this
    {
      Jit(regions, symbols, dirty, orphans)
    }

    constructor ()
      ensures State() == EMPTY
    {
      regions, symbols, dirty, orphans := map[], map[], {}, [];
    }

    method Intersecting(start: U64, end: U64) returns (out: seq<(U64, U64)>)
      ensures out == JitImages.Intersecting(regions, start, end)
    {
      out := [];
      var hi := end;
      var last := LastBelow(regions.Keys, hi);
      while last.Some? && regions[last.value] > start
        invariant last == LastBelow(regions.Keys, hi)
        invariant JitImages.Intersecting(regions, start, end) == JitImages.Intersecting(regions, start, hi) + out
        decreases hi
      {
        out := [(last.value, regions[last.value])] + out;
        hi := last.value;
        last := LastBelow(regions.Keys, hi);
      }
    }

    method MarkDirty(start: U64, end: U64) returns (hit: bool)
      modifies `dirty
      ensures State() == JitImages.MarkDirty(old(State()), start, end)
      ensures hit == Meets(old(State()), start, end) && (!hit ==> dirty == old(dirty))
    {
      var hits := Intersecting(start, end);
      var i := 0;
      while i < |hits|
        invariant 0 <= i <= |hits|
        invariant dirty == old(dirty) + Starts(hits[..i])
      {
        assert forall r :: r in hits[..i + 1] <==> r in hits[..i] || r == hits[i];
        dirty := dirty + {hits[i].0};
        i := i + 1;
      }
      assert hits[..|hits|] == hits;
      hit := hits != [];
    }

    /** The gaps between the hits, found with a moving cursor. */
    method FindGaps(start: U64, end: U64) returns (gaps: seq<(U64, U64)>)
      ensures gaps == GapsFor(State(), start, end)
    {
      hide Gaps, JitImages.Intersecting;
      gaps := [];
      var cursor: U64 := start;
      var hits := Intersecting(start, end);
      assert hits[0..] == hits;
      var i := 0;
      while i < |hits|
        invariant 0 <= i <= |hits|
        invariant gaps + Gaps(hits[i..], cursor, end) == Gaps(hits, start, end)
      {
        var s, e := hits[i].0, hits[i].1;
        GapsStep(hits, i, cursor, end);
        if s > cursor {
          gaps := gaps + [(cursor, s)];
        }
        cursor := Max(cursor, e);
        i := i + 1;
      }
      assert hits[i..] == [];
      LastGap(cursor, end);
      if cursor < end {
        gaps := gaps + [(cursor, end)];
      }
    }

    method AddMapping(start: U64, end: U64) returns (added: nat)
      modifies this
      ensures State() == JitImages.AddMapping(old(State()), start, end)
      ensures added == if start < end then |GapsFor(old(State()), start, end)| else 0
    {
      if end <= start {
        return 0;
      }
      var gaps := FindGaps(start, end);
      var i := 0;
      while i < |gaps|
        invariant 0 <= i <= |gaps| && symbols == old(symbols) && orphans == old(orphans)
        invariant Added(regions, gaps[i..]) == Added(old(regions), gaps)
        invariant dirty == old(dirty) + Starts(gaps[..i])
      {
        AddedStep(regions, gaps, i);
        regions := regions[gaps[i].0 := gaps[i].1];
        dirty := dirty + {gaps[i].0};
        i := i + 1;
      }
      assert gaps[..|gaps|] == gaps;
      if gaps != [] && orphans != [] {
        RecheckOrphans();
      }
      added := |gaps|;
    }

    /** Walks the waiting symbols once: each marks what it now meets dirty or goes back to the list. */
    method RecheckOrphans()
      modifies this
      ensures State() == Recheck(old(State()).(orphans := []), old(orphans))
    {
      var waiting := orphans;
      orphans := [];
      var i := 0;
      while i < |waiting|
        invariant 0 <= i <= |waiting|
        invariant Recheck(State(), waiting[i..]) == Recheck(old(State()).(orphans := []), waiting)
      {
        var sym := waiting[i];
        assert waiting[i..][0] == sym && waiting[i..][1..] == waiting[i + 1..];
        if sym in symbols {
          var end := symbols[sym].end;
          var hit := MarkDirty(sym, end);
          if !hit {
            orphans := orphans + [sym];
          }
        }
        i := i + 1;
      }
    }

    method AddSymbol(start: U64, size: U64, name: string)
      modifies this
      ensures State() == JitImages.AddSymbol(old(State()), start, size, name)
    {
      var end := EndOf(start, size);
      if start in symbols && symbols[start].end == end && symbols[start].name == name {
        return;
      }
      symbols := symbols[start := Entry(end, name)];
      var hit := MarkDirty(start, end);
      if !hit {
        orphans := orphans + [start];
      }
    }

    method AdoptOrphans()
      modifies this
      ensures State() == JitImages.AdoptOrphans(old(State()))
    {
      var waiting := orphans;
      orphans := [];
      var i := 0;
      while i < |waiting|
        invariant 0 <= i <= |waiting|
        invariant AdoptAll(State(), waiting[i..]) == AdoptAll(old(State()).(orphans := []), waiting)
      {
        var sym := waiting[i];
        assert waiting[i..][0] == sym && waiting[i..][1..] == waiting[i + 1..];
        if sym in symbols {
          var end := symbols[sym].end;
          var _ := AddMapping(sym, end);
          var _ := MarkDirty(sym, end);
        }
        i := i + 1;
      }
      orphans := [];
    }

    /** The symbols that start in `[start, end)`, collected from the last one back. */
    method Inside(start: U64, end: U64) returns (inside: seq<Symbol>)
      ensures inside == InRange(symbols, start, end)
    {
      inside := [];
      var hi: U64 := end;
      var last := LastBelow(symbols.Keys, hi);
      while last.Some? && last.value >= start
        invariant last == LastBelow(symbols.Keys, hi)
        invariant InRange(symbols, start, end) == InRange(symbols, start, hi) + inside
        decreases hi
      {
        inside := [SymbolAt(symbols, last.value)] + inside;
        hi := last.value;
        last := LastBelow(symbols.Keys, hi);
      }
    }

    /** The table of one region: the symbol running into it, then those that start inside. */
    method Table(start: U64, end: U64) returns (table: seq<Symbol>)
      ensures table == TableOf(symbols, start, end)
    {
      hide InRange;
      table := [];
      var before := LastBelow(symbols.Keys, start);
      if before.Some? {
        if symbols[before.value].end > start {
          table := table + [SymbolAt(symbols, before.value)];
        }
      }
      var inside := Inside(start, end);
      table := table + inside;
    }

    /** The regions that changed since the last call, in ascending order, ready to publish. */
    method TakeDirty() returns (out: seq<Image>)
      modifies `dirty
      ensures out == DirtyImages(old(State()), U64_MAX + 1)
      ensures State() == old(State()).(dirty := {})
    {
      hide TableOf;
      out := [];
      ghost var j := State();
      var hi: int := U64_MAX + 1;
      var last := LastBelow(dirty, hi);
      while last.Some?
        invariant last == LastBelow(dirty, hi) && hi >= 0 && dirty == j.dirty
        invariant DirtyImages(j, U64_MAX + 1) == DirtyImages(j, hi) + out
        decreases hi
      {
        var start := last.value;
        if start in regions {
          var table := Table(start, regions[start]);
          out := [Image(start, regions[start], table)] + out;
        }
        hi := start;
        last := LastBelow(dirty, hi);
      }
      dirty := {};
    }
  }

  /** The gap before one region, then those behind it. */
  lemma GapsStep(hits: seq<(U64, U64)>, i: nat, cursor: U64, end: U64)
    requires i < |hits|
    ensures Gaps(hits[i..], cursor, end)
         == (if hits[i].0 > cursor then [(cursor, hits[i].0)] else []) + Gaps(hits[i + 1..], Max(cursor, hits[i].1), end)
  {
    assert hits[i..][1..] == hits[i + 1..];
  }

  lemma LastGap(cursor: U64, end: U64)
    ensures Gaps([], cursor, end) == if cursor < end then [(cursor, end)] else []
  {
  }

  lemma AddedStep(regions: Regions, gaps: seq<(U64, U64)>, i: nat)
    requires i < |gaps|
    ensures Added(regions, gaps[i..]) == Added(regions[gaps[i].0 := gaps[i].1], gaps[i + 1..])
    ensures Starts(gaps[..i + 1]) == Starts(gaps[..i]) + {gaps[i].0}
  {
    assert gaps[i..][1..] == gaps[i + 1..];
    assert forall r :: r in gaps[..i + 1] <==> r in gaps[..i] || r == gaps[i];
  }

  ghost function WorldOf(images: Images, registry: BinaryRegistry): World
    reads images, registry
  {
    World(images.State(), registry.byBase)
  }

  /** `publish_jit`: every dirty region goes to the registry as an image event; the summary counts the symbols. */
  method PublishJit(images: Images, registry: BinaryRegistry) returns (jitSymbols: nat)
    requires registry.Valid()
    modifies images, registry
    ensures registry.Valid() && WorldOf(images, registry) == Performed(old(WorldOf(images, registry)), PublishStep)
    ensures jitSymbols == |old(images.symbols)|
  {
    hide DirtyImages;
    var out := images.TakeDirty();
    ghost var bs := registry.byBase;
    var i := 0;
    while i < |out|
      invariant 0 <= i <= |out| && registry.Valid() && registry.byBase == PublishAll(bs, out[..i])
      invariant images.State() == old(images.State()).(dirty := {})
    {
      assert out[..i + 1][..i] == out[..i];
      registry.Insert(ToBinary(out[i]));
      i := i + 1;
    }
    assert out[..|out|] == out;
    jitSymbols := |images.symbols|;
  }
}
