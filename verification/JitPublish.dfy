/**
 The JIT tracker feeding the registry: dirty regions are published as images, and an address
 inside a JIT region is then resolved through the registry. The main results are over every
 run of mappings, symbols, adoptions, publications and other images being loaded.
 */
module JitPublish {
  import opened Numbers
  import opened Options
  import opened Sorting
  import opened Registry
  import opened JitImages
  import opened JitTables

  datatype Image = Image(start: U64, end: U64, symbols: seq<Symbol>)

  /** `take_dirty`: the dirty regions below `hi`, ascending, each with its table. */
  function DirtyImages(j: Jit, hi: int): seq<Image>
    decreases if hi >= 0 then hi + 1 else 0
  {
    match LastBelow(j.dirty, hi)
    case None => []
    case Some(s) =>
      DirtyImages(j, s)
      + if s in j.regions then [Image(s, j.regions[s], TableOf(j.symbols, s, j.regions[s]))] else []
  }

  /** The image event as the sink receives it: link-time and runtime addresses coincide. */
  function ToBinary(i: Image): Binary {
    Binary("[jit]", i.start, i.end, i.start, Some("x86_64"), false, i.symbols, None)
  }

  /** The image as the registry keeps it. */
  function AsInserted(b: Binary): Binary {
    b.(symbols := StableSort(b.symbols, SymbolStart()))
  }

  function PublishAll(bs: seq<Binary>, images: seq<Image>): seq<Binary> {
    if images == [] then bs
    else Inserted(PublishAll(bs, images[..|images| - 1]), ToBinary(images[|images| - 1]))
  }

  /** The image that region `s` has now, with its table computed from scratch. */
  function Current(j: Jit, s: U64): Binary
    requires s in j.regions
  {
    ToBinary(Image(s, j.regions[s], TableOf(j.symbols, s, j.regions[s])))
  }

  /** Every clean region is in the registry with its current table. */
  ghost predicate Published(j: Jit, bs: seq<Binary>) {
    forall s :: s in j.regions && s !in j.dirty ==> Current(j, s) in bs
  }

  // ------------------------------------------------------------------------- the machine

  datatype World = World(jit: Jit, binaries: seq<Binary>)

  datatype Step =
    | MapStep(start: U64, end: U64)
    | SymbolStep(start: U64, size: U64, name: string)
    | AdoptStep
    | PublishStep
    | OtherImageStep(binary: Binary)

  function Performed(w: World, step: Step): World {
    match step
    case MapStep(start, end) => w.(jit := AddMapping(w.jit, start, end))
    case SymbolStep(start, size, name) => w.(jit := AddSymbol(w.jit, start, size, name))
    case AdoptStep => w.(jit := AdoptOrphans(w.jit))
    case PublishStep => World(w.jit.(dirty := {}), PublishAll(w.binaries, DirtyImages(w.jit, U64_MAX + 1)))
    case OtherImageStep(b) => w.(binaries := Inserted(w.binaries, b))
  }

  function Run(steps: seq<Step>): World {
    if steps == [] then World(EMPTY, []) else Performed(Run(steps[..|steps| - 1]), steps[|steps| - 1])
  }

  /**
   The step hides no symbol that runs into a clean region, and replaces no clean region's image
   by another one.
   */
  ghost predicate Harmless(w: World, step: Step) {
    match step
    case SymbolStep(start, size, name) => HidesNoHead(w.jit, start, size)
    case OtherImageStep(b) =>
      b.base in w.jit.regions && b.base !in w.jit.dirty ==> AsInserted(b) == Current(w.jit, b.base)
    case _ => true
  }

  ghost predicate HidesNoHead(j: Jit, start: U64, size: U64) {
    forall s :: s in j.regions && s !in j.dirty ==> !HidesHead(j.symbols, s, start, EndOf(start, size))
  }

  ghost predicate HarmlessRun(steps: seq<Step>) {
    steps != [] ==> HarmlessRun(steps[..|steps| - 1]) && Harmless(Run(steps[..|steps| - 1]), steps[|steps| - 1])
  }

  /** The harmless runs in which symbols arrive in an orderly way. */
  ghost predicate OrderlyRun(steps: seq<Step>) {
    steps != [] ==>
      && OrderlyRun(steps[..|steps| - 1])
      && var w, last := Run(steps[..|steps| - 1]), steps[|steps| - 1];
         if last.SymbolStep? then Orderly(w.jit.symbols, last.start, last.size, last.name) else Harmless(w, last)
  }

  ghost predicate WorldInv(w: World) {
    && Inv(w.jit)
    && DistinctBases(w.binaries) && SymbolsSorted(w.binaries)
    && Published(w.jit, w.binaries)
  }

  // ---------------------------------------------------------------------------- publishing

  lemma InsertedCurrent(j: Jit, bs: seq<Binary>, s: U64)
    requires RegionsDisjoint(j.regions) && s in j.regions && DistinctBases(bs) && SymbolsSorted(bs)
    ensures var bs' := Inserted(bs, Current(j, s));
            && DistinctBases(bs') && SymbolsSorted(bs')
            && forall x :: x in bs' <==> (x in bs && x.base != s) || x == Current(j, s)
  {
    var b := Current(j, s);
    InsertedWellFormed(bs, b);
    TableMembers(j.symbols, s, j.regions[s]);
    StableSortKeepsSorted(b.symbols, SymbolStart());
  }

  /** Publishing in ascending order: the dirty regions below `hi` have become current. */
  lemma {:induction false} PublishUpTo(j: Jit, bs: seq<Binary>, hi: int)
    requires Inv(j) && DistinctBases(bs) && SymbolsSorted(bs) && Published(j, bs)
    ensures var bs' := PublishAll(bs, DirtyImages(j, hi));
            && DistinctBases(bs') && SymbolsSorted(bs')
            && forall s :: s in j.regions && (s !in j.dirty || s < hi) ==> Current(j, s) in bs'
    decreases if hi >= 0 then hi + 1 else 0
  {
    hide Current, Inserted, TableOf;
    var last := LastBelow(j.dirty, hi);
    if last.Some? {
      var k := last.value;
      PublishUpTo(j, bs, k);
      var images := DirtyImages(j, k);
      var all := DirtyImages(j, hi);
      PublishedLast(j, bs, k, hi);
      InsertedCurrent(j, PublishAll(bs, images), k);
      forall s | s in j.regions && (s !in j.dirty || s < hi) ensures Current(j, s) in PublishAll(bs, all) {
        assert s == k || s !in j.dirty || s < k;
        CurrentBase(j, s);
      }
    }
  }

  lemma CurrentBase(j: Jit, s: U64)
    requires s in j.regions
    ensures Current(j, s).base == s
  {
  }

  lemma PublishedLast(j: Jit, bs: seq<Binary>, k: U64, hi: int)
    requires LastBelow(j.dirty, hi) == Some(k) && k in j.regions
    ensures PublishAll(bs, DirtyImages(j, hi)) == Inserted(PublishAll(bs, DirtyImages(j, k)), Current(j, k))
  {
    var all := DirtyImages(j, hi);
    assert all[..|all| - 1] == DirtyImages(j, k);
  }

  // ---------------------------------------------------------------- what each step preserves

  /** Regions that are clean afterwards were there, with the same end, and clean before. */
  ghost predicate CleanStays(j: Jit, j': Jit) {
    forall s :: s in j'.regions && s !in j'.dirty ==> s in j.regions && s !in j.dirty && j'.regions[s] == j.regions[s]
  }

  lemma CleanKeepsPublished(j: Jit, j': Jit, bs: seq<Binary>)
    requires CleanStays(j, j') && j'.symbols == j.symbols && Published(j, bs)
    ensures Published(j', bs)
  {
    forall s | s in j'.regions && s !in j'.dirty ensures Current(j', s) in bs {
      assert Current(j', s) == Current(j, s);
    }
  }

  lemma MapCleanStays(j: Jit, start: U64, end: U64)
    requires RegionsDisjoint(j.regions)
    ensures CleanStays(j, AddMapping(j, start, end)) && AddMapping(j, start, end).symbols == j.symbols
  {
    if start < end {
      AddMappingRegions(j, start, end);
      var gaps := GapsFor(j, start, end);
      RecheckKeeps(j.(regions := Added(j.regions, gaps), dirty := j.dirty + Starts(gaps), orphans := []), j.orphans);
    }
  }

  lemma {:induction false} AdoptCleanStays(j: Jit, waiting: seq<U64>)
    requires RegionsDisjoint(j.regions)
    ensures CleanStays(j, AdoptAll(j, waiting)) && AdoptAll(j, waiting).symbols == j.symbols
    decreases |waiting|
  {
    if waiting != [] {
      var sym := waiting[0];
      if sym !in j.symbols {
        AdoptCleanStays(j, waiting[1..]);
      } else {
        var end := j.symbols[sym].end;
        MapCleanStays(j, sym, end);
        AddMappingRegions(j, sym, end);
        AdoptCleanStays(MarkDirty(AddMapping(j, sym, end), sym, end), waiting[1..]);
      }
    }
  }

  /** One new symbol leaves every published table current exactly when it hides no symbol that runs into a clean region. */
  lemma SymbolKeepsPublishedExactly(j: Jit, bs: seq<Binary>, start: U64, size: U64, name: string)
    requires Inv(j) && DistinctBases(bs) && Published(j, bs)
    ensures Published(AddSymbol(j, start, size, name), bs) <==> HidesNoHead(j, start, size)
  {
    hide Current, HidesHead, OrphansComplete;
    var j', end := AddSymbol(j, start, size, name), EndOf(start, size);
    forall s | s in j.regions && s !in j'.dirty
      ensures Current(j', s) in bs <==> !HidesHead(j.symbols, s, start, end)
    {
      SymbolKeepsOne(j, bs, start, size, name, s);
    }
    forall s | s in j.regions && s !in j.dirty && s in j'.dirty ensures !HidesHead(j.symbols, s, start, end) {
      TouchedIsNotHidden(j, start, size, name, s);
    }
  }

  /** A region that the symbol makes dirty is one it reaches. */
  lemma TouchedIsNotHidden(j: Jit, start: U64, size: U64, name: string, s: U64)
    requires RegionsDisjoint(j.regions) && s in j.regions && s !in j.dirty && s in AddSymbol(j, start, size, name).dirty
    ensures !HidesHead(j.symbols, s, start, EndOf(start, size))
  {
    var end := EndOf(start, size);
    MeetsIsTouched(j.(symbols := j.symbols[start := Entry(end, name)]), start, end);
  }

  lemma SymbolKeepsOne(j: Jit, bs: seq<Binary>, start: U64, size: U64, name: string, s: U64)
    requires Inv(j) && DistinctBases(bs) && Published(j, bs)
    requires s in j.regions && s !in AddSymbol(j, start, size, name).dirty
    ensures Current(AddSymbol(j, start, size, name), s) in bs <==> !HidesHead(j.symbols, s, start, EndOf(start, size))
  {
    var j', end := AddSymbol(j, start, size, name), EndOf(start, size);
    AddSymbolFields(j, start, size, name);
    assert Current(j, s) in bs;
    if Overlaps(j.regions, s, start, end) {
      OverlappedIsDirty(j, start, size, name, s);
    } else {
      CleanTableUnchanged(j.symbols, s, j.regions[s], start, end, name);
      hide AddSymbol, TableOf, HidesHead;
      if Current(j', s) in bs {
        SameBaseSame(bs, Current(j', s), Current(j, s));
      }
    }
  }

  lemma AddSymbolFields(j: Jit, start: U64, size: U64, name: string)
    ensures var j' := AddSymbol(j, start, size, name);
            j'.regions == j.regions && j'.symbols == j.symbols[start := Entry(EndOf(start, size), name)]
  {
  }

  /** A region that a symbol meets stays clean only if the symbol was known. */
  lemma OverlappedIsDirty(j: Jit, start: U64, size: U64, name: string, s: U64)
    requires RegionsDisjoint(j.regions) && s in j.regions && Overlaps(j.regions, s, start, EndOf(start, size))
    requires s !in AddSymbol(j, start, size, name).dirty
    ensures AddSymbol(j, start, size, name) == j
  {
    var end := EndOf(start, size);
    MeetsIsTouched(j.(symbols := j.symbols[start := Entry(end, name)]), start, end);
  }

  lemma SameBaseSame(bs: seq<Binary>, a: Binary, b: Binary)
    requires DistinctBases(bs) && a in bs && b in bs && a.base == b.base
    ensures a == b
  {
  }

  lemma SymbolStepInv(w: World, start: U64, size: U64, name: string)
    requires WorldInv(w)
    ensures WorldInv(Performed(w, SymbolStep(start, size, name))) <==> HidesNoHead(w.jit, start, size)
  {
    hide Inv, Published, HidesHead, HidesNoHead;
    AddSymbolInv(w.jit, start, size, name);
    SymbolKeepsPublishedExactly(w.jit, w.binaries, start, size, name);
  }

  lemma OtherImageInv(w: World, b: Binary)
    requires WorldInv(w)
    ensures WorldInv(Performed(w, OtherImageStep(b))) <==> Harmless(w, OtherImageStep(b))
  {
    hide Current, Inv, Inserted;
    InsertedWellFormed(w.binaries, b);
    forall s | s in w.jit.regions && s !in w.jit.dirty
      ensures Current(w.jit, s) in Inserted(w.binaries, b) <==> (s == b.base ==> AsInserted(b) == Current(w.jit, s))
    {
      CurrentBase(w.jit, s);
    }
  }

  /** A step keeps every clean region published with its current table exactly if it is harmless. */
  lemma StepInvExactly(w: World, step: Step)
    requires WorldInv(w)
    ensures WorldInv(Performed(w, step)) <==> Harmless(w, step)
  {
    match step
    case MapStep(start, end) =>
      AddMappingInv(w.jit, start, end);
      MapCleanStays(w.jit, start, end);
      CleanKeepsPublished(w.jit, AddMapping(w.jit, start, end), w.binaries);
    case SymbolStep(start, size, name) => SymbolStepInv(w, start, size, name);
    case AdoptStep =>
      AdoptOrphansInv(w.jit);
      AdoptCleanStays(w.jit.(orphans := []), w.jit.orphans);
      CleanKeepsPublished(w.jit, AdoptOrphans(w.jit), w.binaries);
    case PublishStep =>
      PublishUpTo(w.jit, w.binaries, U64_MAX + 1);
      PublishedWhenClean(w);
    case OtherImageStep(b) => OtherImageInv(w, b);
  }

  lemma PublishedWhenClean(w: World)
    requires forall s :: s in w.jit.regions ==>
               Current(w.jit, s) in PublishAll(w.binaries, DirtyImages(w.jit, U64_MAX + 1))
    ensures Published(Performed(w, PublishStep).jit, Performed(w, PublishStep).binaries)
  {
    hide TableOf, DirtyImages, PublishAll, ToBinary;
    forall s | s in w.jit.regions ensures Current(Performed(w, PublishStep).jit, s) == Current(w.jit, s) {
    }
  }

  lemma {:induction false} RunInv(steps: seq<Step>)
    requires HarmlessRun(steps)
    ensures WorldInv(Run(steps))
  {
    if steps != [] {
      RunInv(steps[..|steps| - 1]);
      StepInvExactly(Run(steps[..|steps| - 1]), steps[|steps| - 1]);
    }
  }

  /** Only symbol steps touch the symbols, and each notes its own. */
  lemma StepSymbols(w: World, step: Step)
    requires Inv(w.jit)
    ensures Performed(w, step).jit.symbols
         == if step.SymbolStep? then w.jit.symbols[step.start := Entry(EndOf(step.start, step.size), step.name)]
            else w.jit.symbols
  {
    match step
    case MapStep(start, end) => MapCleanStays(w.jit, start, end);
    case AdoptStep => AdoptCleanStays(w.jit.(orphans := []), w.jit.orphans);
    case _ =>
  }

  /** When symbols arrive in an orderly way no symbol step does harm, and the symbols stay disjoint. */
  lemma {:induction false} OrderlyIsHarmless(steps: seq<Step>)
    requires OrderlyRun(steps)
    ensures HarmlessRun(steps) && SymbolsDisjoint(Run(steps).jit.symbols)
  {
    hide Harmless, HidesHead, Performed;
    if steps != [] {
      var front, last := steps[..|steps| - 1], steps[|steps| - 1];
      var w := Run(front);
      OrderlyIsHarmless(front);
      RunInv(front);
      StepSymbols(w, last);
      if last.SymbolStep? { OrderlyStepIsHarmless(w, last.start, last.size, last.name); }
    }
  }

  lemma OrderlyStepIsHarmless(w: World, start: U64, size: U64, name: string)
    requires Orderly(w.jit.symbols, start, size, name)
    ensures Harmless(w, SymbolStep(start, size, name))
    ensures SymbolsDisjoint(w.jit.symbols[start := Entry(EndOf(start, size), name)])
  {
    hide HidesHead;
    forall s | s in w.jit.regions ensures !HidesHead(w.jit.symbols, s, start, EndOf(start, size)) {
      OrderlyHidesNothing(w.jit.symbols, start, size, name, s);
    }
  }

  // ------------------------------------------------------------------ which images there are

  /** The bases of the images that were loaded by others. */
  function OtherBases(steps: seq<Step>): set<U64> {
    if steps == [] then {}
    else
      var last := steps[|steps| - 1];
      OtherBases(steps[..|steps| - 1]) + if last.OtherImageStep? then {last.binary.base} else {}
  }

  function Bases(bs: seq<Binary>): set<U64> {
    set b | b in bs :: b.base
  }

  lemma InsertedBases(bs: seq<Binary>, b: Binary)
    ensures Bases(Inserted(bs, b)) == Bases(bs) + {b.base}
  {
    WithoutKeepsOthers(bs, b.base);
    var sorted := b.(symbols := StableSort(b.symbols, SymbolStart()));
    assert sorted in Inserted(bs, b);
    forall base ensures base in Bases(Inserted(bs, b)) <==> base in Bases(bs) || base == b.base {
      if base in Bases(bs) && base != b.base {
        var x :| x in bs && x.base == base;
        assert x in Without(bs, b.base);
      }
    }
  }

  lemma {:induction false} PublishedBases(bs: seq<Binary>, images: seq<Image>)
    ensures Bases(PublishAll(bs, images)) == Bases(bs) + set i | i in images :: i.start
  {
    hide Inserted, Bases;
    if images != [] {
      var front, last := images[..|images| - 1], images[|images| - 1];
      PublishedBases(bs, front);
      InsertedBases(PublishAll(bs, front), ToBinary(last));
      assert images == front + [last];
    }
  }

  lemma {:induction false} DirtyImagesAreRegions(j: Jit, hi: int)
    ensures forall i :: i in DirtyImages(j, hi) ==> i.start in j.regions
    decreases if hi >= 0 then hi + 1 else 0
  {
    if LastBelow(j.dirty, hi).Some? { DirtyImagesAreRegions(j, LastBelow(j.dirty, hi).value); }
  }

  /** Regions are never lost. */
  lemma StepKeepsRegions(w: World, step: Step)
    requires Inv(w.jit)
    ensures w.jit.regions.Keys <= Performed(w, step).jit.regions.Keys
  {
    match step
    case MapStep(start, end) => AddMappingRegions(w.jit, start, end);
    case AdoptStep => AdoptOrphansInv(w.jit);
    case SymbolStep(start, size, name) => AddSymbolFields(w.jit, start, size, name);
    case PublishStep =>
    case OtherImageStep(b) =>
  }

  lemma StepBases(w: World, step: Step)
    ensures var w' := Performed(w, step);
            var other := if step.OtherImageStep? then {step.binary.base} else {};
            Bases(w.binaries) + other <= Bases(w'.binaries) <= Bases(w.binaries) + other + w.jit.regions.Keys
  {
    hide Bases, Inserted, AddMapping, AddSymbol, AdoptOrphans, PublishAll, DirtyImages;
    match step
    case PublishStep =>
      PublishedBases(w.binaries, DirtyImages(w.jit, U64_MAX + 1));
      DirtyImagesAreRegions(w.jit, U64_MAX + 1);
    case OtherImageStep(b) => InsertedBases(w.binaries, b);
    case MapStep(start, end) =>
    case SymbolStep(start, size, name) =>
    case AdoptStep =>
  }

  /** Every image is a region of the tracker's own or was loaded by another step, and those all stay. */
  lemma {:induction false} BasesOfRun(steps: seq<Step>)
    requires HarmlessRun(steps)
    ensures OtherBases(steps) <= Bases(Run(steps).binaries) <= OtherBases(steps) + Run(steps).jit.regions.Keys
  {
    hide Bases, Performed, Harmless;
    if steps == [] {
      assert Bases([]) == {} by { NoBases(); }
    } else {
      var front, last := steps[..|steps| - 1], steps[|steps| - 1];
      BasesOfRun(front);
      RunInv(front);
      StepBases(Run(front), last);
      StepKeepsRegions(Run(front), last);
    }
  }

  lemma NoBases()
    ensures Bases([]) == {}
  {
  }

  // ------------------------------------------------------------------------- the theorem

  /** No image begins strictly between the region's start and the address. */
  ghost predicate NothingBetween(bs: seq<Binary>, s: U64, x: U64) {
    forall b :: b in bs ==> !(s < b.base <= x)
  }

  /** The address lies in a region whose image is published. */
  ghost predicate InCleanRegion(w: World, s: U64, x: U64) {
    s in w.jit.regions && s !in w.jit.dirty && s <= x < w.jit.regions[s]
  }

  /** The tracker's own images never come between: only one that others loaded can. */
  lemma OnlyOthersBetween(steps: seq<Step>, s: U64, x: U64)
    requires HarmlessRun(steps) && InCleanRegion(Run(steps), s, x)
    ensures NothingBetween(Run(steps).binaries, s, x) <==> forall base :: base in OtherBases(steps) ==> !(s < base <= x)
  {
    hide Run, OtherBases, HarmlessRun, Published, OrphansComplete;
    RunInv(steps);
    BasesOfRun(steps);
    var w := Run(steps);
    forall b | b in w.binaries && s < b.base <= x ensures b.base in OtherBases(steps) {
      assert b.base in Bases(w.binaries);
    }
    forall base | base in OtherBases(steps) && s < base <= x ensures !NothingBetween(w.binaries, s, x) {
      assert base in Bases(w.binaries);
    }
  }

  /** The answer is the image of region `s`, as it is now, with the symbol the address goes by, if it has one. */
  ghost predicate AnswersByName(w: World, s: U64, x: U64)
    requires s in w.jit.regions
  {
    var name := NameAt(w.jit.symbols, x);
    match LookupIn(w.binaries, x)
    case Named(i, symbol) =>
      i < |w.binaries| && w.binaries[i] == Current(w.jit, s)
      && name.Some? && symbol == SymbolAt(w.jit.symbols, name.value)
    case Unnamed(i, svma) =>
      i < |w.binaries| && w.binaries[i] == Current(w.jit, s) && svma == x && name.None?
    case Unmapped => false
  }

  /** The answer is the image of region `s` with the symbol that covers the address, if one does. */
  ghost predicate AnswersByCover(w: World, s: U64, x: U64)
    requires s in w.jit.regions
  {
    match LookupIn(w.binaries, x)
    case Named(i, symbol) =>
      i < |w.binaries| && w.binaries[i] == Current(w.jit, s)
      && Covers(w.jit.symbols, symbol.start, x) && symbol == SymbolAt(w.jit.symbols, symbol.start)
    case Unnamed(i, svma) =>
      i < |w.binaries| && w.binaries[i] == Current(w.jit, s) && forall k :: !Covers(w.jit.symbols, k, x)
    case Unmapped => false
  }

  /**
   After any harmless run, overlapping symbols or not, an address in a clean JIT region resolves to
   the last symbol that starts at or below it if that one reaches it, and to the bare region
   otherwise. Only an image that others loaded at an address between the region's start and this
   one could come before it.
   */
  lemma LookupFollowsSymbols(steps: seq<Step>, s: U64, x: U64)
    requires HarmlessRun(steps) && InCleanRegion(Run(steps), s, x)
    requires forall base :: base in OtherBases(steps) ==> !(s < base <= x)
    ensures AnswersByName(Run(steps), s, x)
  {
    hide Run, HarmlessRun, WorldInv, NothingBetween, OtherBases, AnswersByName;
    RunInv(steps);
    OnlyOthersBetween(steps, s, x);
    LookupInWorld(Run(steps), s, x);
  }

  /**
   After any orderly run the address resolves to exactly the JIT symbol that covers it, or to the
   bare region if none does.
   */
  lemma LookupIsExact(steps: seq<Step>, s: U64, x: U64)
    requires OrderlyRun(steps) && InCleanRegion(Run(steps), s, x)
    requires forall base :: base in OtherBases(steps) ==> !(s < base <= x)
    ensures AnswersByCover(Run(steps), s, x)
  {
    hide Run, HarmlessRun, OrderlyRun, OtherBases, NameAt, LookupIn, Current, Covers, SymbolsDisjoint;
    OrderlyIsHarmless(steps);
    LookupFollowsSymbols(steps, s, x);
    NameIsCover(Run(steps).jit.symbols, x);
  }

  lemma LookupInWorld(w: World, s: U64, x: U64)
    requires WorldInv(w) && InCleanRegion(w, s, x) && NothingBetween(w.binaries, s, x)
    ensures AnswersByName(w, s, x)
  {
    hide FreshIndex, SearchIndex, LastStart, TableOf, Inv, Published, NameAt;
    var i := OwnImage(w, s, x);
    TableNames(w.jit.symbols, s, w.jit.regions[s], x);
  }

  /** The registry finds the region's own image unless another begins in between. */
  lemma OwnImage(w: World, s: U64, x: U64) returns (i: nat)
    requires WorldInv(w) && InCleanRegion(w, s, x)
    ensures i < |w.binaries| && w.binaries[i] == Current(w.jit, s) && SvmaFor(w.binaries[i], x) == x
    ensures SearchIndex(FreshIndex(w.binaries), x) == Some(i) <==> NothingBetween(w.binaries, s, x)
  {
    hide FreshIndex, SearchIndex, TableOf, Inv;
    i :| 0 <= i < |w.binaries| && w.binaries[i] == Current(w.jit, s);
    SearchIsLinearScan(w.binaries, x, i);
  }

  /**
   After any harmless run the registry resolves an address of a clean region to the region's own
   image if and only if no image that others loaded begins between the region's start and it.
   */
  lemma FindsRegion(steps: seq<Step>, s: U64, x: U64)
    requires HarmlessRun(steps) && InCleanRegion(Run(steps), s, x)
    ensures var w := Run(steps);
            (exists i: nat :: SearchIndex(FreshIndex(w.binaries), x) == Some(i) && i < |w.binaries| && w.binaries[i] == Current(w.jit, s))
            <==> forall base :: base in OtherBases(steps) ==> !(s < base <= x)
  {
    hide Run, HarmlessRun, WorldInv, NothingBetween, OtherBases, FreshIndex, SearchIndex, TableOf;
    RunInv(steps);
    OnlyOthersBetween(steps, s, x);
    var w := Run(steps);
    var i := OwnImage(w, s, x);
    OnlyOneOwnImage(w, s, i);
  }

  lemma OnlyOneOwnImage(w: World, s: U64, i: nat)
    requires WorldInv(w) && s in w.jit.regions && i < |w.binaries| && w.binaries[i] == Current(w.jit, s)
    ensures forall k :: 0 <= k < |w.binaries| && w.binaries[k] == Current(w.jit, s) ==> k == i
  {
    hide Inv, Published, TableOf;
  }

  lemma RunMore(front: seq<Step>, last: Step)
    ensures Run(front + [last]) == Performed(Run(front), last)
    ensures HarmlessRun(front + [last]) <==> HarmlessRun(front) && Harmless(Run(front), last)
    ensures !last.SymbolStep? ==> (OrderlyRun(front + [last]) <==> OrderlyRun(front) && Harmless(Run(front), last))
    ensures last.SymbolStep? ==>
              (OrderlyRun(front + [last]) <==> OrderlyRun(front) && Orderly(Run(front).jit.symbols, last.start, last.size, last.name))
  {
    hide Performed, Harmless, Orderly;
    assert (front + [last])[..|front|] == front;
  }

  const MAPPED := Jit(map[0x2000 := 0x4000], map[], {0x2000}, [])
  const HEADED := Jit(map[0x2000 := 0x4000], map[0x1000 := Entry(0x3000, "a")], {0x2000}, [])

  lemma MapFirst()
    ensures AddMapping(EMPTY, 0x2000, 0x4000) == MAPPED
  {
    assert Intersecting(EMPTY.regions, 0x2000, 0x4000) == [];
    assert GapsFor(EMPTY, 0x2000, 0x4000) == [(0x2000, 0x4000)];
    assert Added(EMPTY.regions, [(0x2000, 0x4000)]) == Added(MAPPED.regions, [(0x2000, 0x4000)][1..]) == MAPPED.regions;
    assert Starts([(0x2000, 0x4000)]) == {0x2000} by { assert (0x2000, 0x4000) in [(0x2000, 0x4000)]; }
  }

  lemma SymbolMeets()
    ensures AddSymbol(MAPPED, 0x1000, 0x2000, "a") == HEADED
  {
    var j := MAPPED.(symbols := MAPPED.symbols[0x1000 := Entry(0x3000, "a")]);
    MeetsIsTouched(j, 0x1000, 0x3000);
    assert Overlaps(j.regions, 0x2000, 0x1000, 0x3000);
    assert MarkDirty(j, 0x1000, 0x3000).dirty == {0x2000};
  }

  lemma NoOthersYet()
    ensures OtherBases([MapStep(0x2000, 0x4000), SymbolStep(0x1000, 0x2000, "a"), PublishStep]) == {}
  {
    var a, b, c := MapStep(0x2000, 0x4000), SymbolStep(0x1000, 0x2000, "a"), PublishStep;
    assert OtherBases([a]) == OtherBases([]);
    assert OtherBases([a, b]) == OtherBases([a]) by { assert [a, b][..1] == [a]; }
    assert OtherBases([a, b, c]) == OtherBases([a, b]) by { assert [a, b, c][..2] == [a, b]; }
  }

  /** A region is mapped, a symbol that runs into it is noted, and the region is published. */
  lemma PublishedHead()
    ensures var front := [MapStep(0x2000, 0x4000), SymbolStep(0x1000, 0x2000, "a"), PublishStep];
            OrderlyRun(front) && Run(front).jit == HEADED.(dirty := {})
  {
    hide AddMapping, AddSymbol, DirtyImages, PublishAll, Run, OrderlyRun, Orderly;
    var a, b, c := MapStep(0x2000, 0x4000), SymbolStep(0x1000, 0x2000, "a"), PublishStep;
    assert [] + [a] == [a] && [a] + [b] == [a, b] && [a, b] + [c] == [a, b, c];
    NoSteps();
    RunMore([], a);
    MapFirst();
    FirstIsOrderly();
    RunMore([a], b);
    SymbolMeets();
    RunMore([a, b], c);
  }

  lemma FirstIsOrderly()
    ensures Orderly(MAPPED.symbols, 0x1000, 0x2000, "a")
  {
  }

  lemma NoSteps()
    ensures Run([]) == World(EMPTY, []) && OrderlyRun([])
  {
  }

  lemma HeadIsHidden()
    ensures var j := HEADED.(dirty := {});
            && !HidesNoHead(j, 0x1000, 0x10)
            && AddSymbol(j, 0x1000, 0x10, "a").regions == j.regions && AddSymbol(j, 0x1000, 0x10, "a").dirty == {}
            && AddSymbol(j, 0x1000, 0x10, "a").symbols == map[0x1000 := Entry(0x1010, "a")]
  {
    var j := HEADED.(dirty := {});
    assert LastBelow(j.symbols.Keys, 0x2000) == Some(0x1000) by { assert 0x1000 in j.symbols.Keys; }
    assert EndOf(0x1000, 0x10) == 0x1010;
    assert 0x2000 in j.regions && HidesHead(j.symbols, 0x2000, 0x1000, EndOf(0x1000, 0x10));
    MeetsIsTouched(j.(symbols := map[0x1000 := Entry(0x1010, "a")]), 0x1000, 0x1010);
  }

  /**
   A shorter replacement does leave a stale table, so the hypothesis of the theorems is needed: all
   steps before it are orderly, and afterwards the registry still gives an address the name of a
   symbol that no longer reaches it.
   */
  lemma ShorterReplacementGoesStale()
    ensures var front := [MapStep(0x2000, 0x4000), SymbolStep(0x1000, 0x2000, "a"), PublishStep];
            var w := Run(front + [SymbolStep(0x1000, 0x10, "a")]);
            && OrderlyRun(front) && !Published(w.jit, w.binaries) && InCleanRegion(w, 0x2000, 0x2000)
            && (forall k :: !Covers(w.jit.symbols, k, 0x2000))
            && var r := LookupIn(w.binaries, 0x2000); r.Named? && r.symbol == Symbol(0x1000, 0x3000, "a")
  {
    hide OrderlyRun, HarmlessRun, Run, OtherBases, LookupIn, Current, HidesNoHead, AddSymbol;
    var front := [MapStep(0x2000, 0x4000), SymbolStep(0x1000, 0x2000, "a"), PublishStep];
    PublishedHead();
    NoOthersYet();
    HeadIsHidden();
    OrderlyIsHarmless(front);
    RunInv(front);
    SymbolKeepsPublishedExactly(Run(front).jit, Run(front).binaries, 0x1000, 0x10, "a");
    RunMore(front, SymbolStep(0x1000, 0x10, "a"));
    LookupIsExact(front, 0x2000, 0x2000);
    assert Covers(Run(front).jit.symbols, 0x1000, 0x2000);
  }
}
