/** The symbol table of an ELF image, as the registry wants it: sorted, one per address, gap-free. */
module ElfSymbols {
  import opened Numbers
  import opened Options
  import opened Sorting
  import opened Registry

  /** One entry of `.symtab` or `.dynsym`; `name` is `None` when it cannot be read. */
  datatype RawSymbol = RawSymbol(isDefinition: bool, address: U64, size: U64, name: Option<string>)

  predicate Usable(raw: RawSymbol) {
    raw.isDefinition && raw.address != 0 && raw.name.Some? && raw.name.value != ""
  }

  function ToSymbol(raw: RawSymbol): Symbol
    requires Usable(raw)
  {
    Symbol(raw.address, SatAdd(raw.address, Max(raw.size, 4)), raw.name.value)
  }

  function UsableSymbols(raws: seq<RawSymbol>): seq<Symbol> {
    if raws == [] then []
    else
      UsableSymbols(raws[..|raws| - 1])
      + if Usable(raws[|raws| - 1]) then [ToSymbol(raws[|raws| - 1])] else []
  }

  /** Of consecutive symbols at one address only the first stays. */
  function Dedup(s: seq<Symbol>): (r: seq<Symbol>)
    ensures |r| <= |s| && (s != [] ==> r != [] && r[|r| - 1].start == s[|s| - 1].start)
  {
    if s == [] then []
    else
      var r := Dedup(s[..|s| - 1]);
      if r != [] && r[|r| - 1].start == s[|s| - 1].start then r else r + [s[|s| - 1]]
  }

  /** The first usable entry for the address, in file order. */
  function FirstAt(raws: seq<RawSymbol>, address: U64): Option<Symbol> {
    FirstWithKey(UsableSymbols(raws), SymbolStart(), address)
  }

  ghost predicate StrictStarts(s: seq<Symbol>) {
    forall i, j :: 0 <= i < j < |s| ==> s[i].start < s[j].start
  }

  lemma {:induction false} DedupMembers(s: seq<Symbol>)
    ensures forall x :: x in Dedup(s) ==> x in s
  {
    if s != [] {
      DedupMembers(s[..|s| - 1]);
    }
  }

  lemma LastIsGreatest(s: seq<Symbol>)
    requires SortedBy(s, SymbolStart()) && s != []
    ensures forall x :: x in s ==> x.start <= s[|s| - 1].start
    ensures SortedBy(s[..|s| - 1], SymbolStart())
  {
    assert forall i :: 0 <= i < |s| ==> SymbolStart()(s[i]) <= SymbolStart()(s[|s| - 1]);
  }

  lemma StrictSnoc(r: seq<Symbol>, last: Symbol)
    requires StrictStarts(r) && (r != [] ==> r[|r| - 1].start < last.start)
    ensures StrictStarts(r + [last])
  {
    assert forall i :: 0 <= i < |r| ==> r[i].start <= r[|r| - 1].start;
  }

  lemma {:induction false} DedupStrict(s: seq<Symbol>)
    requires SortedBy(s, SymbolStart())
    ensures StrictStarts(Dedup(s))
  {
    hide SortedBy, StrictStarts;
    if s == [] {
      assert StrictStarts([]) by { NothingStrict(); }
    } else {
      var r, last := Dedup(s[..|s| - 1]), s[|s| - 1];
      LastIsGreatest(s);
      DedupStrict(s[..|s| - 1]);
      DedupMembers(s[..|s| - 1]);
      if r != [] {
        assert r[|r| - 1] in r && s == s[..|s| - 1] + [last];
      }
      if r == [] || r[|r| - 1].start != last.start {
        StrictSnoc(r, last);
      }
    }
  }

  lemma NothingStrict()
    ensures StrictStarts([])
  {
  }

  lemma {:induction false} DedupKeepsFirst(s: seq<Symbol>, k: int)
    ensures FirstWithKey(Dedup(s), SymbolStart(), k) == FirstWithKey(s, SymbolStart(), k)
  {
    if s != [] {
      var front, last := s[..|s| - 1], s[|s| - 1];
      DedupKeepsFirst(front, k);
      var r := Dedup(front);
      assert (r + [last])[..|r|] == r;
      if r != [] && r[|r| - 1].start == last.start {
        FirstWithKeyFinds(r, SymbolStart(), |r| - 1);
      }
    }
  }

  lemma {:induction false} FirstWithKeyFinds<T>(s: seq<T>, key: T -> int, i: nat)
    requires i < |s|
    ensures FirstWithKey(s, key, key(s[i])).Some?
  {
    if i < |s| - 1 {
      FirstWithKeyFinds(s[..|s| - 1], key, i);
    }
  }

  lemma {:induction false} FirstWithKeyUnique(s: seq<Symbol>, i: nat)
    requires StrictStarts(s) && i < |s|
    ensures FirstWithKey(s, SymbolStart(), s[i].start) == Some(s[i])
  {
    if i < |s| - 1 {
      FirstWithKeyUnique(s[..|s| - 1], i);
    } else {
      FirstWithKeyAbsent(s[..|s| - 1], s[i].start);
    }
  }

  lemma {:induction false} FirstWithKeyAbsent(s: seq<Symbol>, k: int)
    requires forall i :: 0 <= i < |s| ==> s[i].start != k
    ensures FirstWithKey(s, SymbolStart(), k) == None
  {
    if s != [] {
      FirstWithKeyAbsent(s[..|s| - 1], k);
    }
  }

  /** Every end but the last is moved to the next start; nothing else changes. */
  ghost predicate GapsClosed(table: seq<Symbol>, symbols: seq<Symbol>) {
    && |symbols| == |table|
    && (forall k :: 0 <= k < |table| ==> symbols[k].start == table[k].start && symbols[k].name == table[k].name)
    && (forall k {:trigger symbols[k]} :: 0 <= k < |table| - 1 ==> symbols[k].end == table[k + 1].start)
    && (table != [] ==> symbols[|table| - 1] == table[|table| - 1])
  }

  /**
   The table of an image: strictly ascending starts; exactly the addresses of usable entries,
   each with the name of its first entry; every symbol ends where the next one starts, and
   the last one where its entry says.
   */
  ghost predicate TableOf(raws: seq<RawSymbol>, symbols: seq<Symbol>) {
    && StrictStarts(symbols)
    && (forall i :: 0 <= i < |symbols| - 1 ==> symbols[i].end == symbols[i + 1].start)
    && (forall i :: 0 <= i < |symbols| ==>
          FirstAt(raws, symbols[i].start).Some? && symbols[i].name == FirstAt(raws, symbols[i].start).value.name)
    && (symbols != [] ==> FirstAt(raws, symbols[|symbols| - 1].start) == Some(symbols[|symbols| - 1]))
    && (forall a: U64 :: FirstAt(raws, a).Some? ==> exists i :: 0 <= i < |symbols| && symbols[i].start == a)
  }

  // -------------------------------------------------------------------- the table, read off the file

  /** Entry `j` names the address: it defines something, its name can be read and is not empty. */
  predicate NamesAddress(raws: seq<RawSymbol>, j: nat, a: int) {
    && j < |raws| && raws[j].isDefinition && raws[j].address == a != 0
    && raws[j].name.Some? && raws[j].name.value != ""
  }

  /** The first entry that names the address. */
  ghost predicate FirstNames(raws: seq<RawSymbol>, j: nat, a: int) {
    NamesAddress(raws, j, a) && forall i: nat :: i < j ==> !NamesAddress(raws, i, a)
  }

  /** Where an entry says that its symbol ends; four bytes at least, and not past the last address. */
  function EndsAt(raw: RawSymbol): int {
    var end := raw.address + if raw.size < 4 then 4 else raw.size;
    if end > 0xFFFF_FFFF_FFFF_FFFF then 0xFFFF_FFFF_FFFF_FFFF else end
  }

  /**
   There is a symbol exactly for each address that an entry names, in ascending order, with the name
   of the first such entry; each ends where the next one starts, the last one where its entry says.
   */
  ghost predicate ReadOff(raws: seq<RawSymbol>, symbols: seq<Symbol>) {
    && StrictStarts(symbols)
    && (forall j: nat, a :: NamesAddress(raws, j, a) ==> exists i :: 0 <= i < |symbols| && symbols[i].start == a)
    && (forall i :: 0 <= i < |symbols| ==>
          ComesFrom(raws, symbols[i], if i + 1 < |symbols| then Some(symbols[i + 1].start) else None))
  }

  ghost predicate ComesFrom(raws: seq<RawSymbol>, y: Symbol, next: Option<U64>) {
    exists j: nat ::
      && FirstNames(raws, j, y.start) && raws[j].name == Some(y.name)
      && y.end == if next.Some? then next.value else EndsAt(raws[j])
  }

  lemma {:induction false} FirstAtIs(raws: seq<RawSymbol>, a: U64)
    ensures match FirstAt(raws, a)
            case None => forall j: nat :: !NamesAddress(raws, j, a)
            case Some(y) =>
              y.start == a && exists j: nat :: FirstNames(raws, j, a) && raws[j].name == Some(y.name) && y.end == EndsAt(raws[j])
  {
    if raws != [] {
      var n := |raws| - 1;
      var front, last := raws[..n], raws[n];
      FirstAtIs(front, a);
      forall j: nat | j < n ensures NamesAddress(raws, j, a) <==> NamesAddress(front, j, a) {
        assert raws[j] == front[j];
      }
      FirstAtSnoc(raws, a);
      if FirstAt(front, a).Some? {
        var j: nat :| FirstNames(front, j, a) && front[j].name == Some(FirstAt(front, a).value.name)
                      && FirstAt(front, a).value.end == EndsAt(front[j]);
        assert FirstNames(raws, j, a) && raws[j] == front[j];
      } else if NamesAddress(raws, n, a) {
        assert FirstNames(raws, n, a);
      }
    }
  }

  lemma FirstAtSnoc(raws: seq<RawSymbol>, a: U64)
    requires raws != []
    ensures var n := |raws| - 1;
            FirstAt(raws, a)
            == if FirstAt(raws[..n], a).Some? then FirstAt(raws[..n], a)
               else if NamesAddress(raws, n, a) then Some(Symbol(a, EndsAt(raws[n]), raws[n].name.value)) else None
  {
    var n := |raws| - 1;
    var usable := UsableSymbols(raws[..n]);
    if Usable(raws[n]) {
      assert (usable + [ToSymbol(raws[n])])[..|usable|] == usable;
    } else {
      assert usable + [] == usable;
    }
  }

  lemma TableIsReadOff(raws: seq<RawSymbol>, symbols: seq<Symbol>)
    requires TableOf(raws, symbols)
    ensures ReadOff(raws, symbols)
  {
    hide FirstAt, EndsAt;
    forall i | 0 <= i < |symbols|
      ensures ComesFrom(raws, symbols[i], if i + 1 < |symbols| then Some(symbols[i + 1].start) else None)
    {
      FirstAtIs(raws, symbols[i].start);
    }
    hide FirstNames, ComesFrom;
    forall j: nat, a | NamesAddress(raws, j, a) ensures exists i :: 0 <= i < |symbols| && symbols[i].start == a {
      AddressIsU64(raws, j, a);
      FirstAtIs(raws, a);
    }
  }

  lemma AddressIsU64(raws: seq<RawSymbol>, j: nat, a: int)
    requires NamesAddress(raws, j, a)
    ensures 0 <= a <= U64_MAX
  {
  }

  method ExtractSymbols(raws: seq<RawSymbol>) returns (symbols: seq<Symbol>)
    ensures TableOf(raws, symbols) && ReadOff(raws, symbols)
  {
    symbols := [];
    var i := 0;
    while i < |raws|
      invariant 0 <= i <= |raws| && symbols == UsableSymbols(raws[..i])
    {
      assert raws[..i + 1][..i] == raws[..i];
      if Usable(raws[i]) {
        symbols := symbols + [ToSymbol(raws[i])];
      }
      i := i + 1;
    }
    assert raws[..|raws|] == raws;
    hide UsableSymbols, Dedup, StrictStarts, GapsClosed, TableOf, ReadOff;
    var table := Dedup(StableSort(symbols, SymbolStart()));
    TableFacts(raws, table);
    symbols := CloseGaps(table);
    GapsClosedTable(raws, table, symbols);
    TableIsReadOff(raws, symbols);
  }

  /** The last loop, over the sorted and deduplicated table. */
  method CloseGaps(table: seq<Symbol>) returns (symbols: seq<Symbol>)
    requires StrictStarts(table)
    ensures GapsClosed(table, symbols)
  {
    symbols := table;
    var i := 0;
    while i < |symbols|
      invariant 0 <= i <= |symbols| == |table|
      invariant forall k :: 0 <= k < |table| ==> symbols[k].start == table[k].start && symbols[k].name == table[k].name
      invariant forall k {:trigger symbols[k]} :: 0 <= k < i && k < |table| - 1 ==> symbols[k].end == table[k + 1].start
      invariant table != [] ==> symbols[|table| - 1] == table[|table| - 1]
    {
      if i + 1 < |symbols| {
        var next := symbols[i + 1].start;
        if next > symbols[i].start {
          symbols := symbols[i := symbols[i].(end := next)];
        }
      }
      i := i + 1;
    }
  }

  lemma GapsClosedStarts(table: seq<Symbol>, symbols: seq<Symbol>)
    requires GapsClosed(table, symbols) && StrictStarts(table)
    ensures StrictStarts(symbols)
    ensures forall i :: 0 <= i < |symbols| - 1 ==> symbols[i].end == symbols[i + 1].start
  {
    forall i, j | 0 <= i < j < |symbols| ensures symbols[i].start < symbols[j].start {
      assert table[i].start < table[j].start;
    }
  }

  lemma GapsClosedTable(raws: seq<RawSymbol>, table: seq<Symbol>, symbols: seq<Symbol>)
    requires GapsClosed(table, symbols) && StrictStarts(table)
    requires forall k :: 0 <= k < |table| ==> FirstAt(raws, table[k].start) == Some(table[k])
    requires forall a: U64 :: FirstAt(raws, a).Some? ==> exists k :: 0 <= k < |table| && table[k].start == a
    ensures TableOf(raws, symbols)
  {
    hide FirstAt;
    GapsClosedStarts(table, symbols);
    hide StrictStarts;
    forall a: U64 | FirstAt(raws, a).Some? ensures exists i :: 0 <= i < |symbols| && symbols[i].start == a {
      var k :| 0 <= k < |table| && table[k].start == a;
      assert symbols[k].start == a;
    }
  }

  lemma TableIsCanonical(raws: seq<RawSymbol>, symbols: seq<Symbol>)
    requires TableOf(raws, symbols)
    ensures Canonical(symbols)
  {
    forall i, j | 0 <= i < j < |symbols|
      ensures symbols[i].start < symbols[j].start && symbols[i].end <= symbols[j].start
    {
      assert symbols[i].end == symbols[i + 1].start;
    }
  }

  lemma TableFacts(raws: seq<RawSymbol>, table: seq<Symbol>)
    requires table == Dedup(StableSort(UsableSymbols(raws), SymbolStart()))
    ensures StrictStarts(table)
    ensures forall k :: 0 <= k < |table| ==> FirstAt(raws, table[k].start) == Some(table[k])
    ensures forall a: U64 :: FirstAt(raws, a).Some? ==> exists k :: 0 <= k < |table| && table[k].start == a
  {
    var usable := UsableSymbols(raws);
    var sorted := StableSort(usable, SymbolStart());
    StableSortSorts(usable, SymbolStart());
    DedupStrict(sorted);
    forall a: U64 ensures FirstAt(raws, a) == FirstWithKey(table, SymbolStart(), a) {
      StableSortStable(usable, SymbolStart(), a);
      DedupKeepsFirst(sorted, a);
    }
    forall k | 0 <= k < |table| ensures FirstAt(raws, table[k].start) == Some(table[k]) {
      FirstWithKeyUnique(table, k);
    }
    forall a: U64 | FirstAt(raws, a).Some? ensures exists k :: 0 <= k < |table| && table[k].start == a {
      if forall k :: 0 <= k < |table| ==> table[k].start != a {
        FirstWithKeyAbsent(table, a);
      }
    }
  }
}
