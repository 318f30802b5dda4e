/**
 The registry of loaded images: which image covers an address and which symbol names it.
 Lookups go through a sorted index that is dropped on every change and rebuilt on demand.
 */
module Registry {
  import opened Numbers
  import opened Options
  import opened Sorting

  datatype Symbol = Symbol(start: U64, end: U64, name: string)

  datatype Binary = Binary(
    path: string, base: U64, end: U64, textSvma: U64, arch: Option<string>, isExecutable: bool,
    symbols: seq<Symbol>, textBytes: Option<seq<bv8>>)

  datatype IndexEntry = IndexEntry(base: U64, end: U64, at: nat)

  function SymbolStart(): Symbol -> int { (s: Symbol) => s.start }
  function EntryBase(): IndexEntry -> int { (e: IndexEntry) => e.base }

  // -------------------------------------------------------------- the list of loaded images

  function Without(bs: seq<Binary>, base: U64): seq<Binary> {
    if bs == [] then []
    else if bs[0].base == base then Without(bs[1..], base)
    else [bs[0]] + Without(bs[1..], base)
  }

  /** An image replaces the one with its base; its symbols are sorted once. */
  function Inserted(bs: seq<Binary>, b: Binary): seq<Binary> {
    Without(bs, b.base) + [b.(symbols := StableSort(b.symbols, SymbolStart()))]
  }

  ghost predicate DistinctBases(bs: seq<Binary>) {
    forall i, j :: 0 <= i < j < |bs| ==> bs[i].base != bs[j].base
  }

  ghost predicate SymbolsSorted(bs: seq<Binary>) {
    forall i :: 0 <= i < |bs| ==> SortedBy(bs[i].symbols, SymbolStart())
  }

  lemma {:induction false} WithoutMembers(bs: seq<Binary>, base: U64)
    ensures forall b :: b in Without(bs, base) <==> b in bs && b.base != base
  {
    if bs != [] {
      WithoutMembers(bs[1..], base);
      assert bs == [bs[0]] + bs[1..];
    }
  }

  lemma {:induction false} WithoutDistinct(bs: seq<Binary>, base: U64)
    requires DistinctBases(bs)
    ensures DistinctBases(Without(bs, base))
  {
    if bs != [] {
      var rest := Without(bs[1..], base);
      WithoutDistinct(bs[1..], base);
      WithoutMembers(bs[1..], base);
      forall i | 0 <= i < |rest| ensures rest[i].base != bs[0].base {
        assert rest[i] in rest;
        var k :| 0 < k < |bs| && bs[k] == rest[i];
      }
    }
  }

  lemma WithoutKeepsOthers(bs: seq<Binary>, base: U64)
    ensures forall b :: b in Without(bs, base) <==> b in bs && b.base != base
    ensures DistinctBases(bs) ==> DistinctBases(Without(bs, base))
    ensures SymbolsSorted(bs) ==> SymbolsSorted(Without(bs, base))
  {
    hide DistinctBases;
    WithoutMembers(bs, base);
    if DistinctBases(bs) { WithoutDistinct(bs, base); }
    if SymbolsSorted(bs) {
      hide Without;
      forall i | 0 <= i < |Without(bs, base)| ensures SortedBy(Without(bs, base)[i].symbols, SymbolStart()) {
        assert Without(bs, base)[i] in bs;
      }
    }
  }

  lemma {:induction false} WithoutAbsent(bs: seq<Binary>, base: U64)
    requires forall b :: b in bs ==> b.base != base
    ensures Without(bs, base) == bs
  {
    if bs != [] {
      WithoutAbsent(bs[1..], base);
    }
  }

  /** Inserting keeps the two facts every lookup relies on. */
  lemma InsertedWellFormed(bs: seq<Binary>, b: Binary)
    requires DistinctBases(bs) && SymbolsSorted(bs)
    ensures DistinctBases(Inserted(bs, b)) && SymbolsSorted(Inserted(bs, b))
    ensures forall x :: x in Inserted(bs, b) <==>
              (x in bs && x.base != b.base) || x == b.(symbols := StableSort(b.symbols, SymbolStart()))
  {
    WithoutKeepsOthers(bs, b.base);
    StableSortSorts(b.symbols, SymbolStart());
    assert forall i :: 0 <= i < |Without(bs, b.base)| ==> Without(bs, b.base)[i] in Without(bs, b.base);
  }

  // -------------------------------------------------------------------------- the index

  function Entries(bs: seq<Binary>): (es: seq<IndexEntry>)
    ensures |es| == |bs| && forall i :: 0 <= i < |bs| ==> es[i] == IndexEntry(bs[i].base, bs[i].end, i)
  {
    seq(|bs|, i requires 0 <= i < |bs| => IndexEntry(bs[i].base, bs[i].end, i))
  }

  function FreshIndex(bs: seq<Binary>): seq<IndexEntry> {
    StableSort(Entries(bs), EntryBase())
  }

  /** The last entry whose base is not above the address, if the address is below its end. */
  function SearchIndex(index: seq<IndexEntry>, address: U64): Option<nat> {
    var pos := PartitionPoint(index, EntryBase(), address);
    if pos == 0 then None
    else if address < index[pos - 1].end then Some(index[pos - 1].at) else None
  }

  /** Image `i` covers the address, and no image begins between its base and the address. */
  ghost predicate LastCover(bs: seq<Binary>, address: U64, i: nat) {
    && i < |bs| && bs[i].base <= address < bs[i].end
    && forall j :: 0 <= j < |bs| && bs[j].base <= address ==> bs[j].base <= bs[i].base
  }

  lemma IndexIsSortedEntries(bs: seq<Binary>)
    ensures SortedBy(FreshIndex(bs), EntryBase())
    ensures forall k :: 0 <= k < |FreshIndex(bs)| ==>
              FreshIndex(bs)[k].at < |bs| && FreshIndex(bs)[k] == Entries(bs)[FreshIndex(bs)[k].at]
    ensures forall j :: 0 <= j < |bs| ==> Entries(bs)[j] in FreshIndex(bs)
  {
    var es, index := Entries(bs), FreshIndex(bs);
    StableSortSorts(es, EntryBase());
    SameMembers(es, index);
    forall k | 0 <= k < |index| ensures index[k].at < |bs| && index[k] == es[index[k].at] {
      assert index[k] in es;
    }
  }

  lemma LastEntryBelow(index: seq<IndexEntry>, address: U64, e: IndexEntry)
    requires SortedBy(index, EntryBase()) && e in index && e.base <= address
    ensures PartitionPoint(index, EntryBase(), address) > 0
    ensures e.base <= index[PartitionPoint(index, EntryBase(), address) - 1].base
  {
    PartitionPointSplits(index, EntryBase(), address);
    var k :| 0 <= k < |index| && index[k] == e;
    assert EntryBase()(index[k]) == e.base;
    assert k < PartitionPoint(index, EntryBase(), address);
  }

  lemma SearchFinds(bs: seq<Binary>, address: U64)
    requires DistinctBases(bs)
    ensures match SearchIndex(FreshIndex(bs), address)
            case Some(i) => LastCover(bs, address, i)
            case None => forall i: nat :: !LastCover(bs, address, i)
  {
    hide PartitionPoint, FreshIndex;
    var es, index := Entries(bs), FreshIndex(bs);
    IndexIsSortedEntries(bs);
    var pos := PartitionPoint(index, EntryBase(), address);
    forall j | 0 <= j < |bs| && bs[j].base <= address
      ensures pos > 0 && bs[j].base <= index[pos - 1].base
    {
      LastEntryBelow(index, address, es[j]);
    }
    forall i: nat | LastCover(bs, address, i) ensures index[pos - 1].at == i {
      var k := index[pos - 1].at;
      assert bs[k].base == bs[i].base;
    }
  }

  /** The binary search agrees with a linear scan wherever at most one image could answer. */
  lemma SearchIsLinearScan(bs: seq<Binary>, address: U64, i: nat)
    requires DistinctBases(bs) && i < |bs| && bs[i].base <= address < bs[i].end
    ensures SearchIndex(FreshIndex(bs), address) == Some(i)
       <==> forall j :: 0 <= j < |bs| ==> !(bs[i].base < bs[j].base <= address)
  {
    SearchFinds(bs, address);
    var r := SearchIndex(FreshIndex(bs), address);
    if r.Some? && LastCover(bs, address, i) {
      assert bs[r.value].base == bs[i].base;
    }
    assert (forall j :: 0 <= j < |bs| ==> !(bs[i].base < bs[j].base <= address)) ==> LastCover(bs, address, i);
  }

  // -------------------------------------------------------------------------- the symbols

  /** Runtime address to link-time address, wrapping like the machine. */
  function SvmaFor(b: Binary, address: U64): U64 {
    (address - b.base + b.textSvma) % (U64_MAX + 1)
  }

  /** Link-time address back to runtime address. */
  function AvmaFor(b: Binary, svma: U64): U64 {
    (svma - b.textSvma + b.base) % (U64_MAX + 1)
  }

  /** Adding `d` and taking it away again gives the number back, wherever it wraps. */
  lemma WrapAndBack(x: U64, d: int, y: U64)
    requires -U64_MAX <= d <= U64_MAX && y == (x + d) % (U64_MAX + 1)
    ensures (y - d) % (U64_MAX + 1) == x
  {
    if x + d < 0 {
      assert y == x + d + (U64_MAX + 1);
    } else if x + d > U64_MAX {
      assert y == x + d - (U64_MAX + 1);
    } else {
      assert y == x + d;
    }
  }

  /** The two translations undo each other, wherever they wrap. */
  lemma AddressRoundTrip(b: Binary, address: U64)
    ensures AvmaFor(b, SvmaFor(b, address)) == address
    ensures SvmaFor(b, AvmaFor(b, address)) == address
  {
    WrapAndBack(address, b.textSvma - b.base, SvmaFor(b, address));
    WrapAndBack(address, b.base - b.textSvma, AvmaFor(b, address));
  }

  /** `lookup_symbol`: the last symbol that starts at or before `svma`, if it reaches that far. */
  function LastStart(symbols: seq<Symbol>, svma: U64): Option<nat> {
    var k := PartitionPoint(symbols, SymbolStart(), svma);
    if k > 0 && svma < symbols[k - 1].end then Some(k - 1) else None
  }

  /** `resolve`: the first symbol that covers `svma`. */
  function FirstCover(symbols: seq<Symbol>, svma: U64): (r: Option<nat>)
    ensures r.Some? ==> r.value < |symbols| && symbols[r.value].start <= svma < symbols[r.value].end
    ensures r.Some? ==> forall i :: 0 <= i < r.value ==> !(symbols[i].start <= svma < symbols[i].end)
    ensures r.None? ==> forall i :: 0 <= i < |symbols| ==> !(symbols[i].start <= svma < symbols[i].end)
  {
    if symbols == [] then None
    else if symbols[0].start <= svma < symbols[0].end then Some(0)
    else match FirstCover(symbols[1..], svma)
      case Some(i) => Some(i + 1)
      case None => None
  }

  /** Strictly ascending starts, and no symbol reaches past the next one's start. */
  ghost predicate Canonical(symbols: seq<Symbol>) {
    forall i, j :: 0 <= i < j < |symbols| ==>
      symbols[i].start < symbols[j].start && symbols[i].end <= symbols[j].start
  }

  /** On canonical tables the two searches pick the same symbol. */
  lemma SearchesAgree(symbols: seq<Symbol>, svma: U64)
    requires Canonical(symbols)
    ensures LastStart(symbols, svma) == FirstCover(symbols, svma)
  {
    PartitionPointSplits(symbols, SymbolStart(), svma);
    var k, r := PartitionPoint(symbols, SymbolStart(), svma), FirstCover(symbols, svma);
    if r.Some? {
      assert r.value < k && symbols[k - 1].start <= svma < symbols[r.value].end;
    }
  }

  // ------------------------------------------------------------------------ save, restore

  /** Restoring inserts the saved images one by one into an empty registry. */
  function Restored(saved: seq<Binary>): seq<Binary> {
    if saved == [] then [] else Inserted(Restored(saved[..|saved| - 1]), saved[|saved| - 1])
  }

  lemma {:induction false} RestoreIsIdentity(bs: seq<Binary>)
    requires DistinctBases(bs) && SymbolsSorted(bs)
    ensures Restored(bs) == bs
  {
    if bs != [] {
      var front, last := bs[..|bs| - 1], bs[|bs| - 1];
      RestoreIsIdentity(front);
      WithoutAbsent(front, last.base);
      StableSortKeepsSorted(last.symbols, SymbolStart());
    }
  }

  /** The architecture a registry goes by: the first one that any image it was given named. */
  function FirstArch(bs: seq<Binary>): Option<string> {
    if bs == [] then None
    else
      var before := FirstArch(bs[..|bs| - 1]);
      if before.Some? then before else bs[|bs| - 1].arch
  }

  /** The architecture of the first image that names one. */
  ghost predicate NamedFirst(bs: seq<Binary>, arch: Option<string>) {
    match arch
    case None => forall b :: b in bs ==> b.arch.None?
    case Some(_) => exists k :: 0 <= k < |bs| && bs[k].arch == arch && forall j :: 0 <= j < k ==> bs[j].arch.None?
  }

  lemma {:induction false} FirstArchIsNamedFirst(bs: seq<Binary>)
    ensures NamedFirst(bs, FirstArch(bs))
  {
    if bs != [] {
      var front, last := bs[..|bs| - 1], bs[|bs| - 1];
      FirstArchIsNamedFirst(front);
      if FirstArch(front).Some? {
        var k :| 0 <= k < |front| && front[k].arch == FirstArch(front) && forall j :: 0 <= j < k ==> front[j].arch.None?;
        assert bs[k].arch == FirstArch(bs) && forall j :: 0 <= j < k ==> bs[j] == front[j];
      } else {
        assert forall j :: 0 <= j < |front| ==> bs[j] in front;
        assert bs == front + [last];
      }
    }
  }

  datatype Lookup =
    | Unmapped                          // no image covers the address
    | Unnamed(binary: nat, svma: U64)   // an image does, but none of its symbols
    | Named(binary: nat, symbol: Symbol)

  /** `lookup_symbol` as a function of the loaded images. */
  function LookupIn(bs: seq<Binary>, address: U64): Lookup {
    match SearchIndex(FreshIndex(bs), address)
    case None => Unmapped
    case Some(i) =>
      if i >= |bs| then Unmapped
      else
        var svma := SvmaFor(bs[i], address);
        match LastStart(bs[i].symbols, svma)
        case Some(k) => Named(i, bs[i].symbols[k])
        case None => Unnamed(i, svma)
  }

  // ----------------------------------------------------------------------- what a lookup answers

  /** The last symbol of the table that starts at or below `svma`. */
  ghost predicate LastAtOrBelow(symbols: seq<Symbol>, svma: int, k: nat) {
    && k < |symbols| && symbols[k].start <= svma
    && forall j :: k < j < |symbols| ==> svma < symbols[j].start
  }

  /** As far into the image as it was linked as the address is into the loaded one, modulo 2^64. */
  ghost predicate IsLinked(b: Binary, address: U64, svma: int) {
    0 <= svma < 0x1_0000_0000_0000_0000
    && ((svma - b.textSvma) - (address - b.base)) % 0x1_0000_0000_0000_0000 == 0
  }

  /**
   The image with the greatest base at or below the address answers if it covers it, with its last
   symbol that starts at or below the linked address, if that one reaches it.
   */
  ghost predicate Answers(bs: seq<Binary>, address: U64, answer: Lookup) {
    match answer
    case Unmapped => forall i: nat :: !LastCover(bs, address, i)
    case Named(i, symbol) =>
      LastCover(bs, address, i) && NamedBy(bs[i], address, symbol)
    case Unnamed(i, svma) =>
      LastCover(bs, address, i) && IsLinked(bs[i], address, svma)
      && forall k: nat :: LastAtOrBelow(bs[i].symbols, svma, k) ==> bs[i].symbols[k].end <= svma
  }

  ghost predicate NamedBy(b: Binary, address: U64, symbol: Symbol) {
    exists svma: int, k: nat ::
      IsLinked(b, address, svma) && LastAtOrBelow(b.symbols, svma, k) && b.symbols[k] == symbol && svma < symbol.end
  }

  lemma SvmaIsLinked(b: Binary, address: U64)
    ensures IsLinked(b, address, SvmaFor(b, address))
  {
    var d := address - b.base + b.textSvma;
    assert SvmaFor(b, address) - d == -(d / 0x1_0000_0000_0000_0000) * 0x1_0000_0000_0000_0000;
  }

  lemma LastStartExact(symbols: seq<Symbol>, svma: U64)
    requires SortedBy(symbols, SymbolStart())
    ensures match LastStart(symbols, svma)
            case Some(k) => LastAtOrBelow(symbols, svma, k) && svma < symbols[k].end
            case None => forall k: nat :: LastAtOrBelow(symbols, svma, k) ==> symbols[k].end <= svma
  {
    PartitionPointSplits(symbols, SymbolStart(), svma);
    var p := PartitionPoint(symbols, SymbolStart(), svma);
    assert forall j :: 0 <= j < |symbols| ==> SymbolStart()(symbols[j]) == symbols[j].start;
    hide PartitionPoint;
    if p > 0 { assert LastAtOrBelow(symbols, svma, p - 1); }
    forall k: nat | LastAtOrBelow(symbols, svma, k) ensures k == p - 1 {
      assert k < p;
    }
  }

  /** A lookup among any images answers exactly that. */
  lemma LookupAnswers(bs: seq<Binary>, address: U64)
    requires DistinctBases(bs) && SymbolsSorted(bs)
    ensures Answers(bs, address, LookupIn(bs, address))
  {
    hide FreshIndex, SearchIndex, LastStart, DistinctBases, IsLinked, LastAtOrBelow, SvmaFor;
    SearchFinds(bs, address);
    match SearchIndex(FreshIndex(bs), address)
    case None =>
    case Some(i) =>
      SvmaIsLinked(bs[i], address);
      LastStartExact(bs[i].symbols, SvmaFor(bs[i], address));
  }

  lemma LinkedOnce(b: Binary, address: U64, x: int, y: int)
    requires IsLinked(b, address, x) && IsLinked(b, address, y)
    ensures x == y
  {
    var d := address - b.base + b.textSvma;
    assert x - d == ((x - d) / 0x1_0000_0000_0000_0000) * 0x1_0000_0000_0000_0000;
    assert y - d == ((y - d) / 0x1_0000_0000_0000_0000) * 0x1_0000_0000_0000_0000;
  }

  lemma NamedOnce(b: Binary, address: U64, symbol: Symbol, svma: int)
    requires NamedBy(b, address, symbol) && IsLinked(b, address, svma)
    ensures svma < symbol.end
    ensures exists k: nat :: LastAtOrBelow(b.symbols, svma, k) && b.symbols[k] == symbol
  {
    hide IsLinked;
    var x: int, k: nat :|
      IsLinked(b, address, x) && LastAtOrBelow(b.symbols, x, k) && b.symbols[k] == symbol && x < symbol.end;
    LinkedOnce(b, address, x, svma);
  }

  lemma LastOnce(symbols: seq<Symbol>, svma: int, j: nat, k: nat)
    requires LastAtOrBelow(symbols, svma, j) && LastAtOrBelow(symbols, svma, k)
    ensures j == k
  {
  }

  lemma CoverOnce(bs: seq<Binary>, address: U64, i: nat, j: nat)
    requires DistinctBases(bs) && LastCover(bs, address, i) && LastCover(bs, address, j)
    ensures i == j
  {
  }

  lemma SameNamed(b: Binary, address: U64, y: Symbol, z: Symbol)
    requires NamedBy(b, address, y) && NamedBy(b, address, z)
    ensures y == z
  {
    hide NamedBy;
    SvmaIsLinked(b, address);
    var svma := SvmaFor(b, address);
    NamedOnce(b, address, y, svma);
    NamedOnce(b, address, z, svma);
    var j: nat :| LastAtOrBelow(b.symbols, svma, j) && b.symbols[j] == y;
    var k: nat :| LastAtOrBelow(b.symbols, svma, k) && b.symbols[k] == z;
    LastOnce(b.symbols, svma, j, k);
  }

  /** There is but one answer, so each case is given exactly if its condition holds. */
  lemma AnswersOnce(bs: seq<Binary>, address: U64, a: Lookup, b: Lookup)
    requires DistinctBases(bs) && Answers(bs, address, a) && Answers(bs, address, b)
    ensures a == b
  {
    hide NamedBy, DistinctBases, IsLinked, LastAtOrBelow;
    if !a.Unmapped? && !b.Unmapped? {
      CoverOnce(bs, address, a.binary, b.binary);
      var image := bs[a.binary];
      if a.Named? && b.Named? {
        SameNamed(image, address, a.symbol, b.symbol);
      } else if a.Unnamed? && b.Unnamed? {
        LinkedOnce(image, address, a.svma, b.svma);
      } else if a.Named? {
        NamedOnce(image, address, a.symbol, b.svma);
      } else {
        NamedOnce(image, address, b.symbol, a.svma);
      }
    }
  }

  /** In a canonical table the symbol that answers is the one that covers the linked address, if one does. */
  lemma CanonicalAnswer(b: Binary, address: U64, svma: int)
    requires Canonical(b.symbols) && IsLinked(b, address, svma)
    ensures forall k: nat :: k < |b.symbols| && b.symbols[k].start <= svma < b.symbols[k].end ==> NamedBy(b, address, b.symbols[k])
    ensures forall y :: NamedBy(b, address, y) ==> y in b.symbols && y.start <= svma < y.end
  {
  }

  class BinaryRegistry {
    var byBase: seq<Binary>
    var byBaseIndex: Option<seq<IndexEntry>>
    var dyldArch: Option<string>

    /** The cached index, if there is one, is the one that would be built now. */
    ghost predicate Valid()
      reads this
    {
      && DistinctBases(byBase) && SymbolsSorted(byBase)
      && (byBaseIndex.Some? ==> byBaseIndex.value == FreshIndex(byBase))
    }

    constructor ()
      ensures Valid() && byBase == [] && dyldArch == None
    {
      byBase, byBaseIndex, dyldArch := [], None, None;
    }

    method Insert(binary: Binary)
      requires Valid()
      modifies this
      ensures Valid() && byBase == Inserted(old(byBase), binary)
      ensures dyldArch == if old(dyldArch).Some? then old(dyldArch) else binary.arch
    {
      InsertedWellFormed(byBase, binary);
      var kept := Retain(binary.base);
      if dyldArch.None? {
        dyldArch := binary.arch;
      }
      byBase := kept + [binary.(symbols := StableSort(binary.symbols, SymbolStart()))];
      byBaseIndex := None;
    }

    method Remove(base: U64)
      requires Valid()
      modifies this
      ensures Valid() && byBase == Without(old(byBase), base) && dyldArch == old(dyldArch)
    {
      WithoutKeepsOthers(byBase, base);
      byBase := Retain(base);
      byBaseIndex := None;
    }

    method Retain(base: U64) returns (kept: seq<Binary>)
      ensures kept == Without(byBase, base)
    {
      kept := [];
      var i := 0;
      while i < |byBase|
        invariant 0 <= i <= |byBase|
        invariant kept + Without(byBase[i..], base) == Without(byBase, base)
      {
        if byBase[i].base != base {
          kept := kept + [byBase[i]];
        }
        i := i + 1;
      }
    }

    method BinaryForAddress(address: U64) returns (found: Option<nat>)
      requires Valid()
      modifies `byBaseIndex
      ensures Valid() && byBaseIndex.Some?
      ensures match found
              case Some(i) => LastCover(byBase, address, i)
              case None => forall i: nat :: !LastCover(byBase, address, i)
      ensures found == SearchIndex(FreshIndex(byBase), address)
    {
      if byBaseIndex.None? {
        byBaseIndex := Some(StableSort(Entries(byBase), EntryBase()));
      }
      var index := byBaseIndex.value;
      SearchFinds(byBase, address);
      var pos := PartitionPoint(index, EntryBase(), address);
      if pos == 0 {
        return None;
      }
      return if address < index[pos - 1].end then Some(index[pos - 1].at) else None;
    }

    method LookupSymbol(address: U64) returns (result: Lookup)
      requires Valid()
      modifies `byBaseIndex
      ensures Valid() && result == LookupIn(byBase, address) && Answers(byBase, address, result)
    {
      LookupAnswers(byBase, address);
      hide Answers;
      var found := BinaryForAddress(address);
      if found.None? {
        return Unmapped;
      }
      var binary := byBase[found.value];
      var svma := SvmaFor(binary, address);
      var k := PartitionPoint(binary.symbols, SymbolStart(), svma);
      if k > 0 {
        var candidate := binary.symbols[k - 1];
        if svma < candidate.end {
          return Named(found.value, candidate);
        }
      }
      return Unnamed(found.value, svma);
    }

    method ReplaceFromSaved(saved: seq<Binary>)
      modifies this
      ensures Valid() && byBase == Restored(saved) && NamedFirst(saved, dyldArch)
      ensures DistinctBases(saved) && SymbolsSorted(saved) ==> byBase == saved
    {
      var restored := FromSaved(saved);
      byBase, byBaseIndex, dyldArch := restored.byBase, restored.byBaseIndex, restored.dyldArch;
      FirstArchIsNamedFirst(saved);
      if DistinctBases(saved) && SymbolsSorted(saved) {
        RestoreIsIdentity(saved);
      }
    }

    static method FromSaved(saved: seq<Binary>) returns (restored: BinaryRegistry)
      ensures fresh(restored) && restored.Valid()
      ensures restored.byBase == Restored(saved) && restored.dyldArch == FirstArch(saved)
    {
      restored := new BinaryRegistry();
      var i := 0;
      while i < |saved|
        invariant 0 <= i <= |saved| && fresh(restored) && restored.Valid()
        invariant restored.byBase == Restored(saved[..i]) && restored.dyldArch == FirstArch(saved[..i])
      {
        assert saved[..i + 1][..i] == saved[..i];
        restored.Insert(saved[i]);
        i := i + 1;
      }
      assert saved[..|saved|] == saved;
    }
  }
}
