/** Perf map lines: `START SIZE NAME`, the two numbers in hexadecimal. */
module PerfMap {
  import opened Numbers
  import opened Options

  datatype Entry = Entry(start: U64, size: U64, name: string)

  // ------------------------------------------------------------------------------ white space

  /** The Unicode property White_Space. */
  predicate White(c: char) {
    || '\U{9}' <= c <= '\U{D}' || c == ' ' || c == '\U{85}' || c == '\U{A0}' || c == '\U{1680}'
    || '\U{2000}' <= c <= '\U{200A}' || c == '\U{2028}' || c == '\U{2029}' || c == '\U{202F}'
    || c == '\U{205F}' || c == '\U{3000}'
  }

  function TrimStart(s: string): string {
    if s != "" && White(s[0]) then TrimStart(s[1..]) else s
  }

  function TrimEnd(s: string): string {
    if s != "" && White(s[|s| - 1]) then TrimEnd(s[..|s| - 1]) else s
  }

  function Trim(s: string): string {
    TrimEnd(TrimStart(s))
  }

  /** What comes before and after the first white space. */
  function SplitAtWhite(s: string): (r: Option<(string, string)>)
    ensures r.Some? ==> |r.value.0| + 1 + |r.value.1| == |s|
  {
    if s == "" then None
    else if White(s[0]) then Some(("", s[1..]))
    else
      var rest := SplitAtWhite(s[1..]);
      if rest.None? then None else Some(([s[0]] + rest.value.0, rest.value.1))
  }

  // ------------------------------------------------------------------------------- hexadecimal

  function Digit(c: char): Option<nat> {
    if '0' <= c <= '9' then Some(c as int - '0' as int)
    else if 'a' <= c <= 'f' then Some(c as int - 'a' as int + 10)
    else if 'A' <= c <= 'F' then Some(c as int - 'A' as int + 10)
    else None
  }

  function Value(digits: string): Option<nat> {
    if digits == "" then Some(0)
    else
      var front, last := Value(digits[..|digits| - 1]), Digit(digits[|digits| - 1]);
      if front.None? || last.None? then None else Some(front.value * 16 + last.value)
  }

  /** Base 16 without prefix: one plus sign may lead; empty, foreign characters and overflow fail. */
  function FromRadix16(s: string): Option<U64> {
    var digits := if |s| > 1 && s[0] == '+' then s[1..] else s;
    if digits == "" then None
    else
      var v := Value(digits);
      if v.None? || v.value > U64_MAX then None else Some(v.value)
  }

  function WithoutPrefix(s: string): string {
    if "0x" <= s || "0X" <= s then s[2..] else s
  }

  function ParseHex(s: string): Option<U64> {
    FromRadix16(WithoutPrefix(s))
  }

  function ParseLine(line: string): Option<Entry> {
    var first := SplitAtWhite(TrimStart(line));
    if first.None? then None
    else
      var second := SplitAtWhite(TrimStart(first.value.1));
      if second.None? then None
      else
        var name := Trim(second.value.1);
        var start, size := ParseHex(first.value.0), ParseHex(second.value.0);
        if name == "" || start.None? || size.None? then None
        else Some(Entry(start.value, size.value, name))
  }

  // ---------------------------------------------------------------------- what a line looks like

  ghost predicate AllWhite(s: string) {
    forall k :: 0 <= k < |s| ==> White(s[k])
  }

  /** A word: something, and no white space in it. */
  ghost predicate IsWord(s: string) {
    s != "" && forall k :: 0 <= k < |s| ==> !White(s[k])
  }

  ghost predicate StartsDark(s: string) {
    s == "" || !White(s[0])
  }

  ghost predicate EndsDark(s: string) {
    s == "" || !White(s[|s| - 1])
  }

  /** Two words, each ended by a white space, with white space before them, and the rest of the line. */
  datatype Parts = Parts(lead: string, start: string, gap: string, size: string, rest: string)

  ghost predicate IsSplit(line: string, p: Parts) {
    && AllWhite(p.lead) && IsWord(p.start) && IsWord(p.size)
    && p.gap != "" && AllWhite(p.gap)
    && p.rest != "" && White(p.rest[0])
    && line == p.lead + p.start + p.gap + p.size + p.rest
  }

  /** The name of a line: its rest without the white space around it. */
  ghost predicate IsNameOf(name: string, rest: string) {
    && name != "" && StartsDark(name) && EndsDark(name)
    && exists before, after :: AllWhite(before) && AllWhite(after) && rest == before + name + after
  }

  lemma {:induction false} TrimStartExact(lead: string, s: string)
    requires AllWhite(lead) && StartsDark(s)
    ensures TrimStart(lead + s) == s
  {
    if lead == "" {
      assert lead + s == s;
    } else {
      assert (lead + s)[1..] == lead[1..] + s;
      TrimStartExact(lead[1..], s);
    }
  }

  lemma {:induction false} TrimEndExact(s: string, after: string)
    requires AllWhite(after) && EndsDark(s)
    ensures TrimEnd(s + after) == s
    decreases |after|
  {
    if after == "" {
      assert s + after == s;
    } else {
      assert (s + after)[..|s + after| - 1] == s + after[..|after| - 1];
      TrimEndExact(s, after[..|after| - 1]);
    }
  }

  lemma {:induction false} TrimStartSplits(s: string) returns (lead: string)
    ensures AllWhite(lead) && StartsDark(TrimStart(s)) && s == lead + TrimStart(s)
  {
    hide White;
    if s != "" && White(s[0]) {
      var l := TrimStartSplits(s[1..]);
      lead := [s[0]] + l;
    } else {
      lead := "";
    }
  }

  lemma {:induction false} TrimEndSplits(s: string) returns (after: string)
    ensures AllWhite(after) && EndsDark(TrimEnd(s)) && s == TrimEnd(s) + after
  {
    if s != "" && White(s[|s| - 1]) {
      var a := TrimEndSplits(s[..|s| - 1]);
      after := a + [s[|s| - 1]];
    } else {
      after := "";
    }
  }

  lemma TrimmedIsName(rest: string)
    requires Trim(rest) != ""
    ensures IsNameOf(Trim(rest), rest)
  {
    hide White, TrimStart, TrimEnd;
    var before := TrimStartSplits(rest);
    var after := TrimEndSplits(TrimStart(rest));
    assert rest == before + Trim(rest) + after;
    assert Trim(rest)[0] == TrimStart(rest)[0];
  }

  lemma NameIsTrimmed(rest: string, name: string)
    requires IsNameOf(name, rest)
    ensures Trim(rest) == name
  {
    hide White, TrimStart, TrimEnd;
    var before, after :| AllWhite(before) && AllWhite(after) && rest == before + name + after;
    assert rest == before + (name + after) && (name + after)[0] == name[0];
    TrimStartExact(before, name + after);
    TrimEndExact(name, after);
  }

  /** Trimming finds the name of a line, and finds nothing only in white space. */
  lemma TrimIsName(rest: string, name: string)
    ensures name != "" ==> (Trim(rest) == name <==> IsNameOf(name, rest))
  {
    hide Trim;
    if Trim(rest) != "" { TrimmedIsName(rest); }
    if IsNameOf(name, rest) { NameIsTrimmed(rest, name); }
  }

  lemma {:induction false} SplitExact(word: string, rest: string)
    requires (forall k :: 0 <= k < |word| ==> !White(word[k])) && rest != "" && White(rest[0])
    ensures SplitAtWhite(word + rest) == Some((word, rest[1..]))
  {
    var s := word + rest;
    if word == "" {
      assert s == rest;
    } else {
      assert s[1..] == word[1..] + rest;
      SplitExact(word[1..], rest);
      assert [word[0]] + word[1..] == word;
    }
  }

  lemma {:induction false} SplitSplits(s: string)
    requires SplitAtWhite(s).Some?
    ensures var word, rest := SplitAtWhite(s).value.0, s[|SplitAtWhite(s).value.0|..];
            && (forall k :: 0 <= k < |word| ==> !White(word[k]))
            && rest != "" && White(rest[0]) && rest[1..] == SplitAtWhite(s).value.1 && s == word + rest
  {
    if !White(s[0]) {
      SplitSplits(s[1..]);
    }
  }

  /** A line with these parts is the entry its words and its rest spell, or none if one of them does not. */
  lemma ParseOfSplit(line: string, p: Parts)
    requires IsSplit(line, p)
    ensures ParseLine(line)
         == if Trim(p.rest[1..]) == "" || ParseHex(p.start).None? || ParseHex(p.size).None? then None
            else Some(Entry(ParseHex(p.start).value, ParseHex(p.size).value, Trim(p.rest[1..])))
  {
    hide White, ParseHex, Trim, TrimStart, SplitAtWhite;
    var tail := p.size + p.rest;
    var body := p.start + (p.gap + tail);
    assert line == p.lead + body && body[0] == p.start[0];
    TrimStartExact(p.lead, body);
    SplitExact(p.start, p.gap + tail);
    assert (p.gap + tail)[1..] == p.gap[1..] + tail && tail[0] == p.size[0];
    TrimStartExact(p.gap[1..], tail);
    SplitExact(p.size, p.rest);
  }

  lemma FirstWord(s: string) returns (word: string, rest: string)
    requires StartsDark(s) && SplitAtWhite(s).Some?
    ensures IsWord(word) && rest != "" && White(rest[0]) && s == word + rest
    ensures SplitAtWhite(s).value.1 == rest[1..]
  {
    SplitSplits(s);
    word := SplitAtWhite(s).value.0;
    rest := s[|word|..];
  }

  lemma Assembled(lead: string, start: string, gap: string, size: string, rest: string)
    ensures lead + (start + (gap + (size + rest))) == lead + start + gap + size + rest
  {
  }

  lemma LineSplits(line: string) returns (p: Parts)
    requires ParseLine(line).Some?
    ensures IsSplit(line, p)
  {
    hide White, ParseHex, Trim, TrimStart, SplitAtWhite;
    var lead := TrimStartSplits(line);
    var start, after := FirstWord(TrimStart(line));
    var gap := TrimStartSplits(after[1..]);
    var size, rest := FirstWord(TrimStart(after[1..]));
    assert after == ([after[0]] + gap) + (size + rest);
    p := Parts(lead, start, [after[0]] + gap, size, rest);
    Assembled(lead, start, p.gap, size, rest);
  }

  /**
   Exactly which lines are entries: a start and a size that are hexadecimal, ended by white space,
   and a name that is what remains without the white space around it.
   */
  lemma ParseLineExact(line: string, e: Entry)
    ensures ParseLine(line) == Some(e)
       <==> exists p :: IsSplit(line, p) && ParseHex(p.start) == Some(e.start) && ParseHex(p.size) == Some(e.size)
                        && IsNameOf(e.name, p.rest[1..])
  {
    hide White, ParseHex, Trim, TrimStart, SplitAtWhite, ParseLine;
    if ParseLine(line) == Some(e) {
      var p := LineSplits(line);
      ParseOfSplit(line, p);
      TrimIsName(p.rest[1..], e.name);
    }
    if p :| IsSplit(line, p) && ParseHex(p.start) == Some(e.start) && ParseHex(p.size) == Some(e.size)
            && IsNameOf(e.name, p.rest[1..]) {
      ParseOfSplit(line, p);
      TrimIsName(p.rest[1..], e.name);
    }
  }

  // -------------------------------------------------------------------------- what a writer does

  const DIGITS := "0123456789abcdef"

  function PrintHex(n: nat): string {
    if n < 16 then [DIGITS[n]] else PrintHex(n / 16) + [DIGITS[n % 16]]
  }

  /** A name that reading does not change. */
  predicate IsName(name: string) {
    name != "" && Trim(name) == name && '\n' !in name
  }

  function PrintLine(e: Entry, prefix: bool): string {
    (if prefix then "0x" else "") + PrintHex(e.start) + " " + PrintHex(e.size) + " " + e.name
  }

  lemma DigitsRead(d: nat)
    requires d < 16
    ensures Digit(DIGITS[d]) == Some(d) && !White(DIGITS[d]) && DIGITS[d] != '+' && DIGITS[d] != 'x' && DIGITS[d] != 'X'
    ensures DIGITS[d] != '\n'
  {
  }

  ghost predicate HexDigits(s: string) {
    s != "" && forall k :: 0 <= k < |s| ==> !White(s[k]) && s[k] != '+' && s[k] != 'x' && s[k] != 'X' && s[k] != '\n'
  }

  lemma HexStep(m: nat, d: nat)
    requires d < 16
    ensures (16 * m + d) / 16 == m && (16 * m + d) % 16 == d
  {
  }

  lemma PrintHexStep(m: nat, d: nat)
    requires d < 16
    ensures PrintHex(16 * m + d) == if m == 0 then [DIGITS[d]] else PrintHex(m) + [DIGITS[d]]
  {
    HexStep(m, d);
  }

  lemma {:induction false} PrintHexReads(n: nat)
    ensures Value(PrintHex(n)) == Some(n) && HexDigits(PrintHex(n))
  {
    hide Digit, White;
    if n < 16 {
      DigitsRead(n);
      assert PrintHex(n)[..0] == "";
    } else {
      hide PrintHex, Value, HexDigits;
      var m, d := n / 16, n % 16;
      assert n == 16 * m + d;
      PrintHexReads(m);
      PrintHexStep(m, d);
      OneMoreDigit(PrintHex(m), m, d);
    }
  }

  lemma OneMoreDigit(s: string, m: nat, d: nat)
    requires Value(s) == Some(m) && HexDigits(s) && d < 16
    ensures Value(s + [DIGITS[d]]) == Some(16 * m + d) && HexDigits(s + [DIGITS[d]])
  {
    hide Digit, White;
    DigitsRead(d);
    assert (s + [DIGITS[d]])[..|s|] == s;
  }

  /** With or without the prefix, a printed number is read back. */
  lemma HexRoundTrip(n: U64)
    ensures ParseHex(PrintHex(n)) == Some(n)
    ensures ParseHex("0x" + PrintHex(n)) == Some(n)
    ensures ParseHex("0X" + PrintHex(n)) == Some(n)
  {
    hide White, Value;
    PrintHexReads(n);
    var s := PrintHex(n);
    NoPrefix(s);
    assert WithoutPrefix("0x" + s) == s && WithoutPrefix("0X" + s) == s;
  }

  lemma NoPrefix(s: string)
    requires HexDigits(s)
    ensures WithoutPrefix(s) == s
  {
    assert |s| < 2 || (s[1] != 'x' && s[1] != 'X');
  }

  // ----------------------------------------------------------------------- what a number looks like

  function Lower(c: char): char {
    if 'A' <= c <= 'F' then (c as int - 'A' as int + 'a' as int) as char else if c == 'X' then 'x' else c
  }

  function Lowered(s: string): (t: string)
    ensures |t| == |s| && forall k :: 0 <= k < |s| ==> t[k] == Lower(s[k])
  {
    if s == "" then "" else Lowered(s[..|s| - 1]) + [Lower(s[|s| - 1])]
  }

  ghost predicate AllZeros(s: string) {
    forall k :: 0 <= k < |s| ==> s[k] == '0'
  }

  lemma LowerKeepsDigit(c: char)
    ensures Digit(Lower(c)) == Digit(c)
    ensures Digit(c).Some? ==> Digit(c).value < 16 && Lower(c) == DIGITS[Digit(c).value]
  {
  }

  lemma {:induction false} LoweredKeepsValue(s: string)
    ensures Value(Lowered(s)) == Value(s)
  {
    if s != "" {
      hide Digit, Lower;
      LoweredKeepsValue(s[..|s| - 1]);
      LowerKeepsDigit(s[|s| - 1]);
      assert Lowered(s)[..|s| - 1] == Lowered(s[..|s| - 1]);
    }
  }

  lemma {:induction false} ZerosKeepValue(zeros: string, s: string)
    requires AllZeros(zeros)
    ensures Value(zeros + s) == Value(s)
    decreases |zeros| + |s|
  {
    if s != "" {
      assert (zeros + s)[..|zeros + s| - 1] == zeros + s[..|s| - 1];
      ZerosKeepValue(zeros, s[..|s| - 1]);
    } else if zeros != "" {
      assert zeros + s == zeros && zeros[..|zeros| - 1] + "" == zeros[..|zeros| - 1];
      ZerosKeepValue(zeros[..|zeros| - 1], "");
    } else {
      assert zeros + s == "";
    }
  }

  lemma PrintHexZero()
    ensures PrintHex(0) == "0"
  {
  }

  /** Digits of a value: in lower case, zeros and then the number as it is printed. */
  lemma {:induction false} DigitsOfValue(s: string) returns (zeros: string)
    requires s != "" && Value(s).Some?
    ensures AllZeros(zeros) && Lowered(s) == zeros + PrintHex(Value(s).value)
  {
    hide Digit, Lower, PrintHex;
    var front, c := s[..|s| - 1], s[|s| - 1];
    LowerKeepsDigit(c);
    var d := Digit(c).value;
    if front == "" {
      PrintHexStep(0, d);
      zeros := "";
      assert Lowered(s) == [Lower(c)];
    } else {
      var z := DigitsOfValue(front);
      var m := Value(front).value;
      PrintHexStep(m, d);
      PrintHexZero();
      hide Value, Lowered, AllZeros;
      zeros := if m == 0 then z + PrintHex(0) else z;
      assert AllZeros(zeros) by { ZeroMore(z); }
      assert z + PrintHex(m) + [DIGITS[d]] == zeros + PrintHex(16 * m + d);
    }
  }

  lemma ZeroMore(zeros: string)
    requires AllZeros(zeros)
    ensures AllZeros(zeros + "0")
  {
  }

  lemma ValueExact(s: string, n: nat)
    requires s != ""
    ensures Value(s) == Some(n) <==> exists zeros :: AllZeros(zeros) && Lowered(s) == zeros + PrintHex(n)
  {
    hide Value, Lowered, PrintHex;
    if Value(s) == Some(n) {
      var zeros := DigitsOfValue(s);
    }
    if zeros :| AllZeros(zeros) && Lowered(s) == zeros + PrintHex(n) {
      LoweredKeepsValue(s);
      ZerosKeepValue(zeros, PrintHex(n));
      PrintHexReads(n);
    }
  }

  /** A plus sign or none, zeros, and the number as it is printed, in either case. */
  ghost predicate Spells(s: string, n: nat) {
    exists zeros :: AllZeros(zeros) && (Lowered(s) == zeros + PrintHex(n) || Lowered(s) == "+" + zeros + PrintHex(n))
  }

  /** Exactly the spellings of a u64 are read as it. */
  lemma FromRadix16Exact(s: string, n: nat)
    ensures FromRadix16(s) == Some(n) <==> n <= U64_MAX && Spells(s, n)
  {
    hide Value, Lower, PrintHex;
    PrintHexReads(n);
    if |s| > 1 && s[0] == '+' {
      ValueExact(s[1..], n);
      SignedSpelling(s, n);
    } else if s != "" {
      ValueExact(s, n);
      UnsignedSpelling(s, n);
    }
  }

  lemma PlusStays(s: string)
    requires s != ""
    ensures s[0] == '+' <==> Lowered(s)[0] == '+'
  {
  }

  lemma SignedSpelling(s: string, n: nat)
    requires |s| > 1 && s[0] == '+' && HexDigits(PrintHex(n))
    ensures Spells(s, n) <==> exists zeros :: AllZeros(zeros) && Lowered(s[1..]) == zeros + PrintHex(n)
  {
    hide PrintHex;
    assert Lowered(s)[0] == '+';
    assert Lowered(s) == "+" + Lowered(s[1..]);
    hide Lowered, HexDigits;
    forall zeros | AllZeros(zeros) ensures Lowered(s) != zeros + PrintHex(n) {
      FirstIsDigit(zeros, n);
      assert Lowered(s)[0] != (zeros + PrintHex(n))[0];
    }
    forall zeros | AllZeros(zeros)
      ensures Lowered(s) == "+" + zeros + PrintHex(n) <==> Lowered(s[1..]) == zeros + PrintHex(n)
    {
      BehindPlus(Lowered(s[1..]), zeros, PrintHex(n));
    }
  }

  lemma BehindPlus(rest: string, zeros: string, digits: string)
    ensures "+" + rest == "+" + zeros + digits <==> rest == zeros + digits
  {
    assert "+" + zeros + digits == "+" + (zeros + digits);
    assert ("+" + rest)[1..] == rest && ("+" + (zeros + digits))[1..] == zeros + digits;
  }

  lemma FirstIsDigit(zeros: string, n: nat)
    requires AllZeros(zeros) && HexDigits(PrintHex(n))
    ensures (zeros + PrintHex(n))[0] != '+'
  {
    hide PrintHex;
    if zeros == "" { assert zeros + PrintHex(n) == PrintHex(n); }
  }

  lemma UnsignedSpelling(s: string, n: nat)
    requires s != "" && (|s| == 1 || s[0] != '+') && HexDigits(PrintHex(n))
    ensures Spells(s, n) <==> exists zeros :: AllZeros(zeros) && Lowered(s) == zeros + PrintHex(n)
  {
    hide PrintHex;
    PlusStays(s);
    forall zeros ensures Lowered(s) != "+" + zeros + PrintHex(n) {
      var t := "+" + zeros + PrintHex(n);
      assert t[0] == '+' && |t| > 1;
    }
  }

  lemma PrintedHasDarkWords(e: Entry, prefix: bool, a: string, b: string)
    requires a == (if prefix then "0x" else "") + PrintHex(e.start) && b == PrintHex(e.size)
    ensures a != "" && b != ""
    ensures forall k :: 0 <= k < |a| ==> !White(a[k]) && a[k] != '\n'
    ensures forall k :: 0 <= k < |b| ==> !White(b[k]) && b[k] != '\n'
  {
    PrintHexReads(e.start);
    PrintHexReads(e.size);
  }

  /** A printed entry is read back as it was. */
  lemma LineRoundTrip(e: Entry, prefix: bool)
    requires e.name != "" && Trim(e.name) == e.name
    ensures ParseLine(PrintLine(e, prefix)) == Some(e)
  {
    var a, b := (if prefix then "0x" else "") + PrintHex(e.start), PrintHex(e.size);
    assert White(' ');
    hide PrintHex, ParseHex, Trim, White;
    var p := Parts("", a, " ", b, " " + e.name);
    PrintedHasDarkWords(e, prefix, a, b);
    assert PrintLine(e, prefix) == p.lead + p.start + p.gap + p.size + p.rest;
    assert p.rest[1..] == e.name;
    ParseOfSplit(PrintLine(e, prefix), p);
    HexRoundTrip(e.start);
    HexRoundTrip(e.size);
    assert ParseHex(a) == Some(e.start) by {
      if !prefix { assert a == PrintHex(e.start); }
    }
  }

  // ------------------------------------------------------------------------- carriage returns

  lemma {:induction false} TrimStartBefore(s: string, c: char)
    requires White(c)
    ensures TrimStart(s + [c]) == if TrimStart(s) == "" then "" else TrimStart(s) + [c]
  {
    hide White;
    if s == "" {
      assert s + [c] == [c] && [c][1..] == "";
    } else {
      assert (s + [c])[1..] == s[1..] + [c];
      TrimStartBefore(s[1..], c);
    }
  }

  lemma {:induction false} SplitBefore(s: string, c: char)
    requires White(c)
    ensures SplitAtWhite(s + [c])
         == match SplitAtWhite(s)
            case Some(parts) => Some((parts.0, parts.1 + [c]))
            case None => Some((s, ""))
  {
    hide White;
    if s == "" {
      assert s + [c] == [c];
    } else {
      assert (s + [c])[1..] == s[1..] + [c] && s == [s[0]] + s[1..];
      SplitBefore(s[1..], c);
    }
  }

  lemma TrimBefore(s: string, c: char)
    requires White(c)
    ensures Trim(s + [c]) == Trim(s)
  {
    TrimStartBefore(s, c);
    var t := TrimStart(s);
    assert (t + [c])[..|t|] == t;
  }

  /** A white space at the end of a line, as a carriage return, does not change what is read from it. */
  lemma EndingDoesNotMatter(line: string, c: char)
    requires White(c)
    ensures ParseLine(line + [c]) == ParseLine(line)
  {
    hide White, Trim, ParseHex, TrimStart, SplitAtWhite;
    TrimStartBefore(line, c);
    NothingSplit();
    if TrimStart(line) != "" {
      SplitBefore(TrimStart(line), c);
      var first := SplitAtWhite(TrimStart(line));
      if first.Some? {
        TrimStartBefore(first.value.1, c);
        var second := TrimStart(first.value.1);
        if second != "" {
          SplitBefore(second, c);
          if SplitAtWhite(second).Some? { TrimBefore(SplitAtWhite(second).value.1, c); }
        }
      }
    }
  }

  lemma NothingSplit()
    ensures TrimStart("") == "" && SplitAtWhite("") == None && Trim("") == ""
  {
  }
}
