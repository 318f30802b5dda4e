/** Reading a perf map while it is being written. */
module PerfMapTailer {
  import opened Options
  import opened PerfMap

  /** The file's lines; what follows the last newline is one more line unless it is empty. */
  function Lines(text: string): seq<string> {
    var n := FirstNewline(text);
    if n < |text| then [WithoutReturn(text[..n])] + Lines(text[n + 1..])
    else if text == "" then [] else [text]
  }

  function FirstNewline(text: string): (n: nat)
    ensures n <= |text| && '\n' !in text[..n] && (n < |text| ==> text[n] == '\n')
  {
    if text == "" || text[0] == '\n' then 0
    else
      var n := FirstNewline(text[1..]);
      assert text[..1 + n] == [text[0]] + text[1..][..n];
      1 + n
  }

  /** A line may end in a carriage return and a newline. */
  function WithoutReturn(line: string): string {
    if line != "" && line[|line| - 1] == '\r' then line[..|line| - 1] else line
  }

  function ParseAll(lines: seq<string>): seq<Entry> {
    if lines == [] then []
    else
      var e := ParseLine(lines[0]);
      (if e.Some? then [e.value] else []) + ParseAll(lines[1..])
  }

  /** Entries are the same whichever way lines end. */
  lemma ReturnsDoNotMatter(line: string)
    ensures ParseLine(WithoutReturn(line)) == ParseLine(line)
  {
    hide ParseLine;
    if line != "" && White(line[|line| - 1]) {
      EndingDoesNotMatter(line[..|line| - 1], line[|line| - 1]);
      assert line[..|line| - 1] + [line[|line| - 1]] == line;
    }
  }

  function ParseText(text: string): seq<Entry> {
    ParseAll(Lines(text))
  }

  /** The end of the last complete line. */
  function LastLineEnd(text: string): (n: nat)
    ensures n <= |text| && (n > 0 ==> text[n - 1] == '\n') && '\n' !in text[n..]
  {
    if text == "" then 0
    else if text[|text| - 1] == '\n' then |text|
    else
      var n := LastLineEnd(text[..|text| - 1]);
      assert text[n..] == text[..|text| - 1][n..] + [text[|text| - 1]];
      n
  }

  predicate LineBoundary(text: string, n: nat) {
    n <= |text| && (n > 0 ==> text[n - 1] == '\n')
  }

  // --------------------------------------------------------------------------------- one tick

  datatype Ticked = Ticked(offset: nat, entries: seq<Entry>)

  /** A file shorter than what was read starts over. */
  function TickOf(offset: nat, file: string): Ticked {
    var from := if |file| < offset then 0 else offset;
    var end := LastLineEnd(file[from..]);
    Ticked(from + end, ParseText(file[from..from + end]))
  }

  class Tailer {
    var isOpen: bool
    var offset: nat

    constructor ()
      ensures !isOpen && offset == 0
    {
      isOpen, offset := false, 0;
    }

    /** `file` is what the file holds, if it is there; once opened it stays open. */
    method Tick(file: Option<string>) returns (entries: seq<Entry>)
      requires isOpen ==> file.Some?
      modifies this
      ensures isOpen == (old(isOpen) || file.Some?)
      ensures file.None? ==> offset == old(offset) && entries == []
      ensures file.Some? ==> Ticked(offset, entries) == TickOf(old(offset), file.value)
      ensures file.Some? ==> offset <= |file.value| && '\n' !in file.value[offset..]
    {
      hide ParseText, LastLineEnd;
      if file.None? { return []; }
      isOpen := true;
      var text := file.value;
      if |text| < offset {
        offset := 0;
      }
      if |text| == offset {
        NothingNew(text);
        return [];
      }
      var complete := CompletePart(text[offset..]);
      assert text[offset..][complete..] == text[offset + complete..];
      assert text[offset..][..complete] == text[offset..offset + complete];
      if complete == 0 {
        NothingRead();
        return [];
      }
      entries := ParseText(text[offset..][..complete]);
      offset := offset + complete;
    }
  }

  /** Looks for the last newline from the back. */
  method CompletePart(buf: string) returns (complete: nat)
    ensures complete == LastLineEnd(buf)
  {
    complete := |buf|;
    while complete > 0 && buf[complete - 1] != '\n'
      invariant complete <= |buf| && LastLineEnd(buf) == LastLineEnd(buf[..complete])
    {
      assert buf[..complete][..complete - 1] == buf[..complete - 1];
      complete := complete - 1;
    }
    assert buf[..|buf|] == buf;
  }

  lemma NothingRead()
    ensures ParseText("") == []
  {
  }

  lemma NothingNew(text: string)
    ensures LastLineEnd(text[|text|..]) == 0 && ParseText(text[|text|..|text|]) == []
  {
    assert text[|text|..] == "" && text[|text|..|text|] == "";
    NothingRead();
  }

  // ------------------------------------------------------------- independence of the chunking

  lemma {:induction false} FirstNewlineOfConcat(a: string, b: string)
    requires FirstNewline(a) < |a|
    ensures FirstNewline(a + b) == FirstNewline(a)
  {
    if a[0] != '\n' {
      assert (a + b)[1..] == a[1..] + b;
      FirstNewlineOfConcat(a[1..], b);
    }
  }

  lemma FirstNewlineExists(text: string, k: nat)
    requires k < |text| && text[k] == '\n'
    ensures FirstNewline(text) <= k
  {
    forall i | 0 <= i < FirstNewline(text) ensures text[i] != '\n' {
      assert text[i] == text[..FirstNewline(text)][i];
    }
  }

  lemma LinesCons(text: string, n: nat)
    requires n == FirstNewline(text) < |text|
    ensures Lines(text) == [WithoutReturn(text[..n])] + Lines(text[n + 1..])
  {
  }

  /** Text with a line break loses its first line, whatever follows. */
  lemma FirstLineOfConcat(a: string, b: string, n: nat)
    requires n == FirstNewline(a) < |a|
    ensures Lines(a + b) == [WithoutReturn(a[..n])] + Lines(a[n + 1..] + b)
  {
    hide Lines;
    FirstNewlineOfConcat(a, b);
    LinesCons(a + b, n);
    assert (a + b)[..n] == a[..n];
    assert (a + b)[n + 1..] == a[n + 1..] + b;
  }

  lemma {:induction false} LinesConcat(a: string, b: string)
    requires LineBoundary(a, |a|)
    ensures Lines(a + b) == Lines(a) + Lines(b)
    decreases |a|
  {
    hide Lines, FirstNewline;
    if a == "" {
      NoLinesFirst(b);
    } else {
      var n := FirstNewline(a);
      FirstNewlineExists(a, |a| - 1);
      FirstLineOfConcat(a, b, n);
      LinesCons(a, n);
      LinesConcat(a[n + 1..], b);
    }
  }

  lemma NoLinesFirst(b: string)
    ensures Lines("" + b) == Lines("") + Lines(b)
  {
    assert "" + b == b;
  }

  lemma ParseAllCons(lines: seq<string>)
    requires lines != []
    ensures ParseAll(lines)
         == (if ParseLine(lines[0]).Some? then [ParseLine(lines[0]).value] else []) + ParseAll(lines[1..])
  {
  }

  lemma {:induction false} ParseAllConcat(a: seq<string>, b: seq<string>)
    ensures ParseAll(a + b) == ParseAll(a) + ParseAll(b)
  {
    hide ParseLine;
    if a == [] {
      assert a + b == b;
    } else {
      assert (a + b)[1..] == a[1..] + b && (a + b)[0] == a[0];
      ParseAllConcat(a[1..], b);
      ParseAllCons(a);
      ParseAllCons(a + b);
    }
  }

  lemma ParseTextConcat(a: string, b: string)
    requires LineBoundary(a, |a|)
    ensures ParseText(a + b) == ParseText(a) + ParseText(b)
  {
    LinesConcat(a, b);
    ParseAllConcat(Lines(a), Lines(b));
  }

  /** What the ticks over a sequence of file contents give, all together. */
  function Tail(files: seq<string>): Ticked {
    if files == [] then Ticked(0, [])
    else
      var before := Tail(files[..|files| - 1]);
      var t := TickOf(before.offset, files[|files| - 1]);
      Ticked(t.offset, before.entries + t.entries)
  }

  /** Every content is the previous one with something appended. */
  ghost predicate AppendOnly(files: seq<string>) {
    forall i, j :: 0 <= i <= j < |files| ==> files[i] <= files[j]
  }

  lemma {:induction false} LastLineEndOfAppended(text: string, from: nat)
    requires LineBoundary(text, from)
    ensures from <= |text| && LastLineEnd(text) == from + LastLineEnd(text[from..])
  {
    var end := LastLineEnd(text[from..]);
    LastLineEndUnique(text, from + end);
  }

  lemma {:induction false} LastLineEndUnique(text: string, n: nat)
    requires LineBoundary(text, n) && '\n' !in text[n..]
    ensures LastLineEnd(text) == n
  {
    var m := LastLineEnd(text);
    forall i | n <= i < |text| ensures text[i] != '\n' {
      assert text[i] == text[n..][i - n];
    }
    forall i | m <= i < |text| ensures text[i] != '\n' {
      assert text[i] == text[m..][i - m];
    }
  }

  /** A tick from a line end reads on to the end of the last complete line. */
  lemma TickCompletes(file: string, from: nat)
    requires LineBoundary(file, from)
    ensures var t, end := TickOf(from, file), LastLineEnd(file);
            t.offset == end && ParseText(file[..from]) + t.entries == ParseText(file[..end])
  {
    hide ParseText, LastLineEnd, LineBoundary;
    LastLineEndOfAppended(file, from);
    var end := LastLineEnd(file);
    HeadEndsLine(file, from, end);
    ParseTextConcat(file[..from], file[from..end]);
  }

  lemma HeadEndsLine(file: string, from: nat, end: nat)
    requires LineBoundary(file, from) && from <= end <= |file|
    ensures LineBoundary(file[..from], |file[..from]|) && file[..end] == file[..from] + file[from..end]
  {
  }

  /**
   However the ticks fall while the file grows, all entries together are those of the complete lines
   of the last content, read at once; the offset is the end of the last complete line.
   */
  lemma {:induction false} TailIgnoresChunking(files: seq<string>)
    requires AppendOnly(files) && files != []
    ensures var last := files[|files| - 1];
            Tail(files) == Ticked(LastLineEnd(last), ParseText(last[..LastLineEnd(last)]))
  {
    hide ParseText, LastLineEnd;
    var last := files[|files| - 1];
    var before := Tail(files[..|files| - 1]);
    if |files| > 1 {
      TailIgnoresChunking(files[..|files| - 1]);
      var previous := files[|files| - 2];
      assert files[..|files| - 1][|files| - 2] == previous && previous <= last;
      assert last[..before.offset] == previous[..before.offset];
    } else {
      NothingRead();
      assert last[..0] == "";
    }
    assert LineBoundary(last, before.offset) && before.entries == ParseText(last[..before.offset]);
    TickCompletes(last, before.offset);
  }

  // ------------------------------------------------------------------------------- whole files

  function PrintFile(entries: seq<Entry>, prefix: bool): string {
    if entries == [] then ""
    else PrintFile(entries[..|entries| - 1], prefix) + (PrintLine(entries[|entries| - 1], prefix) + "\n")
  }

  lemma PrintedLineHasNoBreak(e: Entry, prefix: bool)
    requires IsName(e.name)
    ensures '\n' !in PrintLine(e, prefix) && WithoutReturn(PrintLine(e, prefix)) == PrintLine(e, prefix)
  {
    hide PrintHex, TrimEnd, TrimStart;
    PrintedHasDarkWords(e, prefix, (if prefix then "0x" else "") + PrintHex(e.start), PrintHex(e.size));
    var _ := TrimEndSplits(TrimStart(e.name));
    assert PrintLine(e, prefix)[|PrintLine(e, prefix)| - 1] == e.name[|e.name| - 1];
  }

  lemma FirstNewlineUnique(text: string, n: nat)
    requires n < |text| && text[n] == '\n' && '\n' !in text[..n]
    ensures FirstNewline(text) == n
  {
    FirstNewlineExists(text, n);
    forall i | 0 <= i < n ensures text[i] != '\n' {
      assert text[i] == text[..n][i];
    }
  }

  lemma OneLineReads(e: Entry, prefix: bool)
    requires IsName(e.name)
    ensures ParseText(PrintLine(e, prefix) + "\n") == [e]
  {
    hide PrintLine, ParseLine;
    var line := PrintLine(e, prefix);
    var text := line + "\n";
    PrintedLineHasNoBreak(e, prefix);
    LineRoundTrip(e, prefix);
    assert text[..|line|] == line && text[|line| + 1..] == "";
    FirstNewlineUnique(text, |line|);
    assert Lines(text) == [line] + Lines("") == [line];
    assert ParseAll([line]) == [e] + ParseAll([line][1..]);
    assert [line][1..] == [];
  }

  /** A file of printed entries is read back entry by entry. */
  lemma {:induction false} PrintedFileReads(entries: seq<Entry>, prefix: bool)
    requires forall e :: e in entries ==> IsName(e.name)
    ensures ParseText(PrintFile(entries, prefix)) == entries
    ensures LineBoundary(PrintFile(entries, prefix), |PrintFile(entries, prefix)|)
  {
    hide ParseText, PrintLine, IsName;
    if entries == [] {
      NothingRead();
    } else {
      var front, last := entries[..|entries| - 1], entries[|entries| - 1];
      PrintedFileReads(front, prefix);
      OneLineReads(last, prefix);
      ParseTextConcat(PrintFile(front, prefix), PrintLine(last, prefix) + "\n");
    }
  }

  /** Whatever pieces a writer's file is seen in, once it is all there exactly its entries have been read. */
  lemma TailReadsWhatWasWritten(entries: seq<Entry>, prefix: bool, files: seq<string>)
    requires forall e :: e in entries ==> IsName(e.name)
    requires AppendOnly(files) && files != [] && files[|files| - 1] == PrintFile(entries, prefix)
    ensures Tail(files) == Ticked(|PrintFile(entries, prefix)|, entries)
  {
    hide Tail, PrintFile, ParseText, IsName;
    var file := PrintFile(entries, prefix);
    PrintedFileReads(entries, prefix);
    TailIgnoresChunking(files);
    assert file[|file|..] == "";
    LastLineEndUnique(file, |file|);
    assert file[..|file|] == file;
  }

  // ------------------------------------------------------------------------- a rewritten file

  /** The end of the line that the offset lies in, or the offset itself between two lines. */
  function EndOfLineAt(file: string, offset: nat): (end: Option<nat>)
    requires offset <= |file|
    ensures end.Some? ==> offset <= end.value && LineBoundary(file, end.value)
    ensures end.Some? ==> forall n :: offset <= n < end.value ==> !LineBoundary(file, n)
    ensures end.None? ==> forall n :: offset <= n <= |file| ==> !LineBoundary(file, n)
    decreases |file| - offset
  {
    if LineBoundary(file, offset) then Some(offset)
    else if offset == |file| then None
    else EndOfLineAt(file, offset + 1)
  }

  /** The last line end lies where it is, seen from the start or from inside the file. */
  lemma EndSeenFrom(offset: nat, file: string, b: nat)
    requires offset <= b <= |file| && LineBoundary(file, b)
    ensures b <= LastLineEnd(file) && LastLineEnd(file[offset..]) == LastLineEnd(file) - offset
  {
    hide LastLineEnd;
    LastLineEndOfAppended(file, b);
    var end, tail := LastLineEnd(file), file[offset..];
    assert tail[end - offset..] == file[end..];
    if end > offset { assert tail[end - offset - 1] == file[end - 1]; }
    LastLineEndUnique(tail, end - offset);
  }

  lemma SliceEndsLine(offset: nat, file: string, b: nat, end: nat)
    requires offset <= b <= end <= |file| && LineBoundary(file, b)
    ensures LineBoundary(file[offset..b], |file[offset..b]|) && file[offset..end] == file[offset..b] + file[b..end]
  {
    if b > offset { assert file[offset..b][b - offset - 1] == file[b - 1]; }
  }

  /** Starting over or not, a tick reads the same from the next line end on. */
  lemma TickFrom(offset: nat, file: string, b: nat)
    requires offset <= b <= |file| && LineBoundary(file, b)
    ensures var end := LastLineEnd(file);
            b <= end && TickOf(offset, file) == Ticked(end, ParseText(file[offset..b]) + ParseText(file[b..end]))
  {
    hide ParseText, LastLineEnd, LineBoundary;
    EndSeenFrom(offset, file, b);
    var end := LastLineEnd(file);
    SliceEndsLine(offset, file, b, end);
    ParseTextConcat(file[offset..b], file[b..end]);
  }

  /** Without a line end from the offset on, a tick waits there, although earlier lines are complete. */
  lemma TickWaits(offset: nat, file: string)
    requires offset <= |file| && EndOfLineAt(file, offset).None?
    ensures TickOf(offset, file).offset == offset > LastLineEnd(file)
  {
    var end := LastLineEnd(file[offset..]);
    assert end > 0 ==> LineBoundary(file, offset + end);
    assert LineBoundary(file, LastLineEnd(file));
  }

  lemma SameTail<T>(a: seq<T>, b: seq<T>, c: seq<T>)
    ensures a + c == b + c <==> a == b
  {
    if a + c == b + c {
      assert |a| == |b|;
      assert a == (a + c)[..|a|] == (b + c)[..|b|] == b;
    }
  }

  /**
   When a rewritten file is read as if from its start, for every offset and every content: exactly if
   it is shorter than what had been read, or the line the offset lies in ends somewhere and the
   entries up to that end are the ones the rest of the line spells by itself. Between two lines, that
   is: there are no entries before the offset.
   */
  lemma StartsOverExactly(offset: nat, file: string)
    ensures TickOf(offset, file) == TickOf(0, file) <==>
            || |file| < offset
            || (EndOfLineAt(file, offset).Some?
                && ParseText(file[..EndOfLineAt(file, offset).value]) == ParseText(file[offset..EndOfLineAt(file, offset).value]))
    ensures offset <= |file| && LineBoundary(file, offset)
            ==> (TickOf(offset, file) == TickOf(0, file) <==> ParseText(file[..offset]) == [])
  {
    if offset <= |file| {
      var end := EndOfLineAt(file, offset);
      hide ParseText, LastLineEnd, EndOfLineAt, TickOf;
      if end.Some? {
        var b := end.value;
        TickFrom(offset, file, b);
        TickFrom(0, file, b);
        assert file[0..b] == file[..b];
        SameTail(ParseText(file[offset..b]), ParseText(file[..b]), ParseText(file[b..LastLineEnd(file)]));
        assert file[offset..offset] == "";
        NothingRead();
      } else {
        TickWaits(offset, file);
        FreshTick(file);
      }
    }
  }

  lemma FreshTick(file: string)
    ensures TickOf(0, file).offset == LastLineEnd(file)
  {
    assert file[0..] == file;
  }

  lemma TailMore(files: seq<string>, file: string)
    ensures var before, t := Tail(files), TickOf(Tail(files).offset, file);
            Tail(files + [file]) == Ticked(t.offset, before.entries + t.entries)
  {
    hide TickOf;
    assert (files + [file])[..|files|] == files;
  }

  lemma TailOfTwo(before: string, after: string)
    ensures var from := LastLineEnd(before);
            Tail([before]).entries == ParseText(before[..from])
            && Tail([before, after]).entries == Tail([before]).entries + TickOf(from, after).entries
  {
    hide ParseText, LastLineEnd, TickOf, Tail;
    assert Tail([]) == Ticked(0, []) by { NoTicks(); }
    assert [] + [before] == [before] && [before] + [after] == [before, after] && before[..0] == "";
    TailMore([], before);
    TickCompletes(before, 0);
    NothingRead();
    TailMore([before], after);
  }

  lemma NoTicks()
    ensures Tail([]) == Ticked(0, [])
  {
  }

  /** An instance between two lines: behind a head as long as the old one, the new head is never seen. */
  lemma RewriteGoesUnseen(old1: Entry, new1: Entry, more: Entry)
    requires IsName(old1.name) && IsName(new1.name) && IsName(more.name)
    requires |PrintLine(old1, false)| == |PrintLine(new1, false)|
    ensures var before := PrintLine(old1, false) + "\n";
            var after := (PrintLine(new1, false) + "\n") + (PrintLine(more, false) + "\n");
            && ParseText(after) == [new1, more]
            && Tail([before, after]).entries == [old1, more]
  {
    hide Tail, PrintLine, ParseText, LastLineEnd, IsName;
    var before, head, rest := PrintLine(old1, false) + "\n", PrintLine(new1, false) + "\n", PrintLine(more, false) + "\n";
    var after := head + rest;
    OneLineReads(old1, false);
    OneLineReads(new1, false);
    OneLineReads(more, false);
    ParseTextConcat(head, rest);
    assert before[|before|..] == "" && rest[|rest|..] == "";
    LastLineEndUnique(before, |before|);
    LastLineEndUnique(rest, |rest|);
    TailOfTwo(before, after);
    assert before[..|before|] == before;
    assert after[|before|..] == rest;
    assert after[|before|..|before| + |rest|] == rest;
  }

  lemma {:induction false} ForeignDigit(s: string, k: nat)
    requires k < |s| && Digit(s[k]).None?
    ensures Value(s).None?
  {
    if k < |s| - 1 { ForeignDigit(s[..|s| - 1], k); }
  }

  /** A number that starts with a letter x is none. */
  lemma NotANumber(word: string)
    requires word != "" && word[0] == 'x'
    ensures ParseHex(word).None?
  {
    assert WithoutPrefix(word) == word;
    ForeignDigit(word, 0);
  }

  lemma UnreadableLine(line: string)
    requires '\n' !in line && WithoutReturn(line) == line && ParseLine(line).None?
    ensures ParseText(line + "\n") == []
  {
    hide ParseLine;
    var text := line + "\n";
    assert text[..|line|] == line && text[|line| + 1..] == "";
    FirstNewlineUnique(text, |line|);
    LinesCons(text, |line|);
    assert Lines(text) == [line] + Lines("");
    ParseAllCons([line]);
  }

  lemma JunkLine(junk: string, e: Entry)
    ensures junk + PrintLine(e, false) == "" + (junk + PrintHex(e.start)) + " " + PrintHex(e.size) + (" " + e.name)
  {
    hide PrintHex;
  }

  /** A printed entry with more letters x in front of it is a line, but no entry. */
  lemma NoEntry(junk: string, e: Entry)
    requires junk != "" && (forall k :: 0 <= k < |junk| ==> junk[k] == 'x') && IsName(e.name)
    ensures ParseLine(junk + PrintLine(e, false)).None?
  {
    var a, b := PrintHex(e.start), PrintHex(e.size);
    var line, p := junk + PrintLine(e, false), Parts("", junk + a, " ", b, " " + e.name);
    assert White(' ') && !White('x') && "" + a == a;
    hide PrintHex, PrintLine, ParseHex, ParseLine, White, TrimStart, TrimEnd;
    PrintedHasDarkWords(e, false, a, b);
    JunkLine(junk, e);
    ParseOfSplit(line, p);
    NotANumber(p.start);
  }

  lemma NoEntryRead(junk: string, e: Entry)
    requires junk != "" && (forall k :: 0 <= k < |junk| ==> junk[k] == 'x') && IsName(e.name)
    ensures ParseText(junk + (PrintLine(e, false) + "\n")) == []
  {
    hide PrintLine, ParseLine, ParseText, IsName;
    var printed := PrintLine(e, false);
    NoEntry(junk, e);
    PrintedLineHasNoBreak(e, false);
    OneLineReads(e, false);
    NotEmptyLine(printed, e);
    assert (junk + printed)[|junk + printed| - 1] == printed[|printed| - 1];
    UnreadableLine(junk + printed);
    assert junk + (printed + "\n") == (junk + printed) + "\n";
  }

  lemma NotEmptyLine(line: string, e: Entry)
    requires line == PrintLine(e, false)
    ensures line != ""
  {
  }

  /** An instance inside a line: a file without any entry, of which the tick makes one up. */
  lemma RewriteMakesUpEntry(old1: Entry, junk: string, made: Entry)
    requires IsName(old1.name) && IsName(made.name)
    requires |junk| == |PrintLine(old1, false)| + 1 && forall k :: 0 <= k < |junk| ==> junk[k] == 'x'
    ensures var before, after := PrintLine(old1, false) + "\n", junk + (PrintLine(made, false) + "\n");
            ParseText(after) == [] && Tail([before, after]).entries == [old1, made]
  {
    hide Tail, PrintLine, ParseText, LastLineEnd, IsName;
    var before, line := PrintLine(old1, false) + "\n", PrintLine(made, false) + "\n";
    var after := junk + line;
    NoEntryRead(junk, made);
    OneLineReads(old1, false);
    OneLineReads(made, false);
    assert before[|before|..] == "" && line[|line|..] == "";
    LastLineEndUnique(before, |before|);
    LastLineEndUnique(line, |line|);
    TailOfTwo(before, after);
    assert before[..|before|] == before;
    assert after[|before|..] == line;
    assert after[|before|..|before| + |line|] == line;
  }
}
