/** `neutralize_metaboards`: a one-pass rewrite of the YAML settings that replaces the entries of the
    `metaboards` section with a single entry no network can match. */
module Metaboards {
  const HEADER: string := "metaboards:"
  const DUMMY: string := "  _disabled: https://localhost"
  const REPLACEMENT: string := HEADER + "\n" + DUMMY + "\n"

  // ---------------------------------------------------------------- text and lines

  function StripCr(line: string): string {
    if line != "" && line[|line| - 1] == '\r' then line[..|line| - 1] else line
  }

  /** The length of the first line, its terminator left out. */
  function LineLength(text: string): (n: nat)
    ensures n <= |text|
    ensures n < |text| ==> text[n] == '\n'
  {
    if text == "" || text[0] == '\n' then 0 else 1 + LineLength(text[1..])
  }

  /** `str::lines`: a line ends at a line feed, together with one carriage return before it; a last
      line without a terminator keeps its carriage returns. */
  function Lines(text: string): seq<string>
    decreases |text|
  {
    if text == "" then []
    else
      var n := LineLength(text);
      if n == |text| then [text] else [StripCr(text[..n])] + Lines(text[n + 1..])
  }

  function Unlines(lines: seq<string>): string {
    if lines == [] then "" else lines[0] + "\n" + Unlines(lines[1..])
  }

  function StripAll(lines: seq<string>): seq<string> {
    if lines == [] then [] else [StripCr(lines[0])] + StripAll(lines[1..])
  }

  // ---------------------------------------------------------------- the rewrite

  predicate IsHeader(line: string) {
    HEADER <= line
  }

  /** Blank and indented lines belong to the block above them. */
  predicate IsEntry(line: string) {
    line == "" || line[0] == ' ' || line[0] == '\t'
  }

  function Rewrite(lines: seq<string>, inBlock: bool): seq<string> {
    if lines == [] then []
    else if !inBlock && IsHeader(lines[0]) then [HEADER, DUMMY] + Rewrite(lines[1..], true)
    else if inBlock && IsEntry(lines[0]) then Rewrite(lines[1..], true)
    else [lines[0]] + Rewrite(lines[1..], false)
  }

  /** The input lines that reach the output as they are. */
  function Copied(lines: seq<string>, inBlock: bool): seq<string> {
    if lines == [] then []
    else if !inBlock && IsHeader(lines[0]) then Copied(lines[1..], true)
    else if inBlock && IsEntry(lines[0]) then Copied(lines[1..], true)
    else [lines[0]] + Copied(lines[1..], false)
  }

  function Neutralized(yaml: string): string {
    Unlines(Rewrite(Lines(yaml), false))
  }

  method NeutralizeMetaboards(yaml: string) returns (result: string)
    ensures result == Neutralized(yaml)
  {
    var lines := Lines(yaml);
    var inMetaboards := false;
    result := "";
    for i := 0 to |lines|
      invariant result + Unlines(Rewrite(lines[i..], inMetaboards)) == Neutralized(yaml)
    {
      var line := lines[i];
      ghost var rest := lines[i + 1..];
      RewriteOne(lines, i, inMetaboards);
      if !inMetaboards && IsHeader(line) {
        inMetaboards := true;
        Associate(result, REPLACEMENT, Unlines(Rewrite(rest, true)));
        result := result + REPLACEMENT;
        continue;
      }
      if inMetaboards {
        if IsEntry(line) {
          continue;
        }
        inMetaboards := false;
      }
      Associate(result, line, "\n");
      Associate(result, line + "\n", Unlines(Rewrite(rest, false)));
      result := result + line;
      result := result + "\n";
    }
  }

  lemma Associate(a: string, b: string, c: string)
    ensures (a + b) + c == a + (b + c)
  {
  }

  lemma ReplacementIsBlock(rest: seq<string>)
    ensures Unlines([HEADER, DUMMY] + rest) == REPLACEMENT + Unlines(rest)
  {
    UnlinesTwo(HEADER, DUMMY, rest);
  }

  lemma UnlinesTwo(a: string, b: string, rest: seq<string>)
    ensures Unlines([a, b] + rest) == (a + "\n" + b + "\n") + Unlines(rest)
  {
    assert ([a, b] + rest)[1..] == [b] + rest;
    assert ([b] + rest)[1..] == rest;
    Associate(a + "\n", b + "\n", Unlines(rest));
    Associate(a + "\n", b, "\n");
  }

  lemma RewriteOne(lines: seq<string>, i: nat, inBlock: bool)
    requires i < |lines|
    ensures Unlines(Rewrite(lines[i..], inBlock))
         == if !inBlock && IsHeader(lines[i]) then REPLACEMENT + Unlines(Rewrite(lines[i + 1..], true))
            else if inBlock && IsEntry(lines[i]) then Unlines(Rewrite(lines[i + 1..], true))
            else lines[i] + "\n" + Unlines(Rewrite(lines[i + 1..], false))
  {
    assert lines[i..][1..] == lines[i + 1..];
    if !inBlock && IsHeader(lines[i]) {
      ReplacementIsBlock(Rewrite(lines[i + 1..], true));
    } else if !(inBlock && IsEntry(lines[i])) {
      assert Rewrite(lines[i..], inBlock)[1..] == Rewrite(lines[i + 1..], false);
    }
  }

  // ---------------------------------------------------------------- blocks

  /** A document cut at a block: what stands before the header is kept, the header and its entries
      become the header and the dummy entry, and the line that ends the block is kept. */
  lemma {:induction false} BlockIsReplaced(before: seq<string>, header: string, entries: seq<string>, after: seq<string>)
    requires forall i :: 0 <= i < |before| ==> !IsHeader(before[i])
    requires IsHeader(header)
    requires forall i :: 0 <= i < |entries| ==> IsEntry(entries[i])
    requires after != [] ==> !IsEntry(after[0])
    ensures Rewrite(before + [header] + entries + after, false)
         == before + [HEADER, DUMMY] + if after == [] then [] else [after[0]] + Rewrite(after[1..], false)
  {
    if before == [] {
      assert ([header] + entries + after)[1..] == entries + after;
      assert before + [header] + entries + after == [header] + entries + after;
      EntriesAreSkipped(entries, after);
    } else {
      BlockIsReplaced(before[1..], header, entries, after);
      assert (before + [header] + entries + after)[1..] == before[1..] + [header] + entries + after;
    }
  }

  lemma {:induction false} EntriesAreSkipped(entries: seq<string>, after: seq<string>)
    requires forall i :: 0 <= i < |entries| ==> IsEntry(entries[i])
    ensures Rewrite(entries + after, true) == Rewrite(after, true)
  {
    if entries == [] {
      assert entries + after == after;
    } else {
      EntriesAreSkipped(entries[1..], after);
      assert (entries + after)[1..] == entries[1..] + after;
    }
  }

  /** Without a header only the line terminators can change. */
  lemma {:induction false} NoHeaderKeepsLines(yaml: string)
    requires forall i :: 0 <= i < |Lines(yaml)| ==> !IsHeader(Lines(yaml)[i])
    ensures Neutralized(yaml) == Unlines(Lines(yaml))
  {
    NothingToRewrite(Lines(yaml));
  }

  lemma {:induction false} NothingToRewrite(lines: seq<string>)
    requires forall i :: 0 <= i < |lines| ==> !IsHeader(lines[i])
    ensures Rewrite(lines, false) == lines
  {
    if lines != [] {
      NothingToRewrite(lines[1..]);
    }
  }

  /** A header reached after nothing but entries. */
  predicate HeaderPending(lines: seq<string>) {
    lines != [] && (IsHeader(lines[0]) || (IsEntry(lines[0]) && HeaderPending(lines[1..])))
  }

  /** Two headers with nothing but entries between them. */
  predicate AdjacentHeaders(lines: seq<string>) {
    lines != [] && ((IsHeader(lines[0]) && HeaderPending(lines[1..])) || AdjacentHeaders(lines[1..]))
  }

  lemma HeaderIsNoEntry(line: string)
    ensures !(IsHeader(line) && IsEntry(line))
  {
    if IsHeader(line) {
      assert line[0] == HEADER[0] == 'm';
    }
  }

  predicate CopiesHeader(lines: seq<string>, inBlock: bool) {
    exists i :: 0 <= i < |Copied(lines, inBlock)| && IsHeader(Copied(lines, inBlock)[i])
  }

  lemma CopiesHeaderStep(line: string, rest: seq<string>)
    ensures (exists i :: 0 <= i < |[line] + rest| && IsHeader(([line] + rest)[i]))
       <==> IsHeader(line) || exists i :: 0 <= i < |rest| && IsHeader(rest[i])
  {
    var all := [line] + rest;
    if IsHeader(line) {
      assert all[0] == line;
    }
    if i :| 0 <= i < |rest| && IsHeader(rest[i]) {
      assert all[i + 1] == rest[i];
    }
  }

  /** Some section header is copied exactly when two of them have nothing but entries between them, so
      every section is neutralised exactly when no two are adjacent. */
  lemma {:induction false} SectionSurvivesIff(lines: seq<string>, inBlock: bool)
    ensures CopiesHeader(lines, inBlock) <==> AdjacentHeaders(lines) || (inBlock && HeaderPending(lines))
  {
    if lines != [] {
      HeaderIsNoEntry(lines[0]);
      if (!inBlock && IsHeader(lines[0])) || (inBlock && IsEntry(lines[0])) {
        SectionSurvivesIff(lines[1..], true);
        assert Copied(lines, inBlock) == Copied(lines[1..], true);
      } else {
        SectionSurvivesIff(lines[1..], false);
        CopiesHeaderStep(lines[0], Copied(lines[1..], false));
        assert Copied(lines, inBlock) == [lines[0]] + Copied(lines[1..], false);
      }
    }
  }

  // ---------------------------------------------------------------- which sections are neutralised

  function Step(line: string, inBlock: bool): bool {
    if !inBlock then IsHeader(line) else IsEntry(line)
  }

  function Emit(line: string, inBlock: bool): seq<string> {
    if !inBlock && IsHeader(line) then [HEADER, DUMMY]
    else if inBlock && IsEntry(line) then []
    else [line]
  }

  /** Whether the rewrite is inside a block once it has read the lines. */
  function InBlockAfter(lines: seq<string>, inBlock: bool): bool {
    if lines == [] then inBlock else InBlockAfter(lines[1..], Step(lines[0], inBlock))
  }

  /** How many headers stand directly before this point, with nothing but entries between them. */
  function HeadersBefore(lines: seq<string>): nat {
    if lines == [] then 0
    else
      var line, rest := lines[|lines| - 1], lines[..|lines| - 1];
      if IsHeader(line) then HeadersBefore(rest) + 1 else if IsEntry(line) then HeadersBefore(rest) else 0
  }

  predicate KeptBehind(before: seq<string>) {
    HeadersBefore(before) % 2 == 1
  }

  lemma {:induction false} OneMoreLine(lines: seq<string>, line: string, inBlock: bool)
    ensures InBlockAfter(lines + [line], inBlock) == Step(line, InBlockAfter(lines, inBlock))
  {
    if lines != [] {
      assert (lines + [line])[1..] == lines[1..] + [line];
      OneMoreLine(lines[1..], line, Step(lines[0], inBlock));
    }
  }

  /** The rewrite is inside a block exactly behind an odd number of such headers. */
  lemma {:induction false} InBlockIsParity(lines: seq<string>)
    ensures InBlockAfter(lines, false) <==> KeptBehind(lines)
  {
    if lines != [] {
      var line, rest := lines[|lines| - 1], lines[..|lines| - 1];
      InBlockIsParity(rest);
      assert rest + [line] == lines;
      OneMoreLine(rest, line, false);
      HeaderIsNoEntry(line);
    }
  }

  lemma {:induction false} RewriteInParts(a: seq<string>, b: seq<string>, inBlock: bool)
    ensures Rewrite(a + b, inBlock) == Rewrite(a, inBlock) + Rewrite(b, InBlockAfter(a, inBlock))
  {
    if a == [] {
      assert a + b == b;
    } else {
      assert (a + b)[1..] == a[1..] + b && (a + b)[0] == a[0];
      RewriteInParts(a[1..], b, Step(a[0], inBlock));
      RewriteStep(a, inBlock);
      RewriteStep(a + b, inBlock);
    }
  }

  lemma RewriteStep(lines: seq<string>, inBlock: bool)
    requires lines != []
    ensures Rewrite(lines, inBlock) == Emit(lines[0], inBlock) + Rewrite(lines[1..], Step(lines[0], inBlock))
  {
    HeaderIsNoEntry(lines[0]);
  }

  lemma {:induction false} EntriesOutside(entries: seq<string>)
    requires forall i :: 0 <= i < |entries| ==> IsEntry(entries[i])
    ensures Rewrite(entries, false) == entries && !InBlockAfter(entries, false)
    ensures Rewrite(entries, true) == [] && InBlockAfter(entries, true)
  {
    if entries != [] {
      HeaderIsNoEntry(entries[0]);
      EntriesOutside(entries[1..]);
    }
  }

  /** What becomes of a section, wherever it stands: behind an odd number of headers separated only by
      entries, it is output verbatim and its entries stay in force; behind an even number, it becomes the
      header and the dummy entry. */
  lemma SectionKeptIff(before: seq<string>, header: string, entries: seq<string>, after: seq<string>)
    requires IsHeader(header) && forall i :: 0 <= i < |entries| ==> IsEntry(entries[i])
    ensures Rewrite(before + ([header] + entries + after), false)
         == Rewrite(before, false)
            + ((if KeptBehind(before) then [header] + entries else [HEADER, DUMMY]) + Rewrite(after, !KeptBehind(before)))
  {
    var kept := KeptBehind(before);
    var section := [header] + entries;
    InBlockIsParity(before);
    HeaderIsNoEntry(header);
    EntriesOutside(entries);
    RewriteStep(section, kept);
    assert section[1..] == entries;
    RewriteInParts(section, after, kept);
    RewriteInParts(before, section + after, false);
  }

  /** Three sections in a row: the second is kept as it is, the first and the third are neutralised. */
  lemma MiddleSectionSurvives()
    ensures var first, second, third := ["metaboards: a", "  x: 1"], ["metaboards: b", "  y: 2"], ["metaboards: c", "  z: 3"];
            && Rewrite(first + second, false) == [HEADER, DUMMY, "metaboards: b", "  y: 2"]
            && Rewrite(first + second + third, false) == [HEADER, DUMMY, "metaboards: b", "  y: 2", HEADER, DUMMY]
  {
    hide Rewrite, IsHeader, IsEntry, HeadersBefore;
    var first, second, third := ["metaboards: a", "  x: 1"], ["metaboards: b", "  y: 2"], ["metaboards: c", "  z: 3"];
    SectionLines("a", "  x: 1");
    SectionLines("b", "  y: 2");
    SectionLines("c", "  z: 3");
    SectionAfter([], "metaboards: a", "  x: 1");
    SectionAfter([] + first, "metaboards: b", "  y: 2");
    SectionAfter([] + first + second, "metaboards: c", "  z: 3");
    assert [] + first == first;
  }

  lemma SectionLines(name: string, entry: string)
    requires entry != "" && entry[0] == ' '
    ensures IsHeader("metaboards: " + name) && IsEntry(entry)
  {
    assert "metaboards: " + name == HEADER + (" " + name);
  }

  lemma SectionAfter(before: seq<string>, header: string, entry: string)
    requires IsHeader(header) && IsEntry(entry)
    ensures HeadersBefore(before + [header, entry]) == HeadersBefore(before) + 1
    ensures Rewrite(before + [header, entry], false)
         == Rewrite(before, false) + if KeptBehind(before) then [header, entry] else [HEADER, DUMMY]
    ensures HeadersBefore([]) == 0 && Rewrite([], false) == []
  {
    SectionKeptIff(before, header, [entry], []);
    assert before + ([header] + [entry] + []) == before + [header, entry];
    var lines := before + [header, entry];
    assert lines[..|lines| - 1] == before + [header] && (before + [header])[..|before|] == before;
    HeaderIsNoEntry(entry);
  }

  // ---------------------------------------------------------------- in characters

  predicate StartsBlock(line: string) {
    |line| >= 11 && line[..11] == "metaboards:"
  }

  /** Blank, or indented by a space or a tab. */
  predicate BelongsToBlock(line: string) {
    line == "" || line[0] == ' ' || line[0] == '\t'
  }

  /** A block is its header line and all blank or indented lines below it. Whatever its entries are, two
      lines stand in its place; the lines around it stay. */
  lemma BlockInCharacters(before: seq<string>, header: string, entries: seq<string>, after: seq<string>)
    requires forall i :: 0 <= i < |before| ==> !StartsBlock(before[i])
    requires StartsBlock(header) && forall i :: 0 <= i < |entries| ==> BelongsToBlock(entries[i])
    requires forall i :: 0 <= i < |after| ==> !StartsBlock(after[i])
    requires after != [] ==> !BelongsToBlock(after[0])
    ensures Rewrite(before + [header] + entries + after, false) == before + [HEADER, DUMMY] + after
  {
    hide IsHeader, IsEntry, StartsBlock, BelongsToBlock, Rewrite;
    LinesInCharacters(before);
    LinesInCharacters(entries);
    LinesInCharacters(after);
    InCharacters(header);
    BlockIsReplaced(before, header, entries, after);
    if after != [] {
      InCharacters(after[0]);
      NothingToRewrite(after[1..]);
      assert after == [after[0]] + after[1..];
    }
  }

  lemma LinesInCharacters(lines: seq<string>)
    ensures forall i :: 0 <= i < |lines| ==> (IsHeader(lines[i]) <==> StartsBlock(lines[i]))
    ensures forall i :: 0 <= i < |lines| ==> (IsEntry(lines[i]) <==> BelongsToBlock(lines[i]))
  {
    hide IsHeader, IsEntry, StartsBlock, BelongsToBlock;
    forall i | 0 <= i < |lines|
      ensures IsHeader(lines[i]) <==> StartsBlock(lines[i])
      ensures IsEntry(lines[i]) <==> BelongsToBlock(lines[i])
    {
      InCharacters(lines[i]);
    }
  }

  lemma InCharacters(line: string)
    ensures IsHeader(line) <==> StartsBlock(line)
    ensures IsEntry(line) <==> BelongsToBlock(line)
  {
  }

  /** A last line without a terminator is read as it is, after all lines that have one. */
  lemma {:induction false} LastLineIsRead(lines: seq<string>, last: string)
    requires OneLine(last) && last != "" && forall i :: 0 <= i < |lines| ==> OneLine(lines[i])
    ensures Lines(Unlines(lines) + last) == StripAll(lines) + [last]
  {
    if lines == [] {
      NoFeedInLine(last);
      assert Unlines(lines) + last == last;
    } else {
      var rest := Unlines(lines[1..]) + last;
      var text := lines[0] + "\n" + rest;
      assert Unlines(lines) + last == text;
      LineLengthOfLine(lines[0], rest);
      assert text[..|lines[0]|] == lines[0] && text[|lines[0]| + 1..] == rest;
      LastLineIsRead(lines[1..], last);
    }
  }

  lemma {:induction false} NoFeedInLine(line: string)
    requires OneLine(line)
    ensures LineLength(line) == |line|
  {
    if line != "" {
      NoFeedInLine(line[1..]);
    }
  }

  /** Reading strips one carriage return before each line feed, and nothing else. */
  lemma {:induction false} StrippedLines(lines: seq<string>, i: nat)
    requires i < |lines|
    ensures |StripAll(lines)| == |lines|
    ensures StripAll(lines)[i] == lines[i] + "" || StripAll(lines)[i] + "\r" == lines[i]
    ensures StripAll(lines)[i] == lines[i] <==> lines[i] == "" || lines[i][|lines[i]| - 1] != '\r'
  {
    if i == 0 {
      if |lines| > 1 {
        StrippedLines(lines[1..], 0);
      }
    } else {
      StrippedLines(lines[1..], i - 1);
    }
  }

  // ---------------------------------------------------------------- idempotence

  /** Rewriting what was rewritten, line by line, changes nothing. */
  lemma {:induction false} RewriteTwice(lines: seq<string>, inBlock: bool)
    ensures Rewrite(Rewrite(lines, inBlock), inBlock) == Rewrite(lines, inBlock)
  {
    if lines != [] {
      var out := Rewrite(lines, inBlock);
      if !inBlock && IsHeader(lines[0]) {
        RewriteTwice(lines[1..], true);
        assert out[1..] == [DUMMY] + Rewrite(lines[1..], true);
        assert out[1..][1..] == Rewrite(lines[1..], true);
      } else if inBlock && IsEntry(lines[0]) {
        RewriteTwice(lines[1..], true);
      } else {
        RewriteTwice(lines[1..], false);
        assert out[1..] == Rewrite(lines[1..], false);
      }
    }
  }

  predicate OneLine(line: string) {
    '\n' !in line
  }

  function TrailingCrs(line: string): nat {
    if line != "" && line[|line| - 1] == '\r' then 1 + TrailingCrs(line[..|line| - 1]) else 0
  }

  ghost predicate AllLines(lines: seq<string>, n: nat) {
    forall i :: 0 <= i < |lines| ==> OneLine(lines[i]) && TrailingCrs(lines[i]) <= n
  }

  // Reading back what was written.

  lemma {:induction false} LineLengthOfLine(line: string, rest: string)
    requires OneLine(line)
    ensures LineLength(line + "\n" + rest) == |line|
  {
    if line == "" {
      assert (line + "\n" + rest)[0] == '\n';
    } else {
      assert (line + "\n" + rest)[1..] == line[1..] + "\n" + rest;
      LineLengthOfLine(line[1..], rest);
    }
  }

  /** Reading back a written document strips one carriage return from each line that ends in one. */
  lemma {:induction false} LinesOfUnlines(lines: seq<string>)
    requires forall i :: 0 <= i < |lines| ==> OneLine(lines[i])
    ensures Lines(Unlines(lines)) == StripAll(lines)
  {
    if lines != [] {
      var rest := Unlines(lines[1..]);
      var text := lines[0] + "\n" + rest;
      LineLengthOfLine(lines[0], rest);
      assert text[..|lines[0]|] == lines[0] && text[|lines[0]| + 1..] == rest;
      LinesOfUnlines(lines[1..]);
    }
  }

  lemma {:induction false} UnlinesInjective(a: seq<string>, b: seq<string>)
    requires forall i :: 0 <= i < |a| ==> OneLine(a[i])
    requires forall i :: 0 <= i < |b| ==> OneLine(b[i])
    requires Unlines(a) == Unlines(b)
    ensures a == b
  {
    if a != [] && b != [] {
      var restA, restB := Unlines(a[1..]), Unlines(b[1..]);
      LineLengthOfLine(a[0], restA);
      LineLengthOfLine(b[0], restB);
      assert (a[0] + "\n" + restA)[..|a[0]|] == a[0] && (b[0] + "\n" + restB)[..|b[0]|] == b[0];
      assert (a[0] + "\n" + restA)[|a[0]| + 1..] == restA && (b[0] + "\n" + restB)[|b[0]| + 1..] == restB;
      UnlinesInjective(a[1..], b[1..]);
      assert a == [a[0]] + a[1..] && b == [b[0]] + b[1..];
    }
  }

  lemma {:induction false} LinesAreOneLine(text: string)
    ensures forall i :: 0 <= i < |Lines(text)| ==> OneLine(Lines(text)[i])
    decreases |text|
  {
    if text != "" {
      var n := LineLength(text);
      NoFeedBefore(text);
      if n < |text| {
        LinesAreOneLine(text[n + 1..]);
      }
    }
  }

  lemma {:induction false} NoFeedBefore(text: string)
    ensures OneLine(text[..LineLength(text)])
  {
    if text != "" && text[0] != '\n' {
      NoFeedBefore(text[1..]);
      assert text[..LineLength(text)] == [text[0]] + text[1..][..LineLength(text[1..])];
    }
  }

  // Carriage returns.

  lemma StripCrRemovesOne(line: string)
    ensures TrailingCrs(StripCr(line)) == if TrailingCrs(line) == 0 then 0 else TrailingCrs(line) - 1
    ensures OneLine(line) ==> OneLine(StripCr(line))
    ensures TrailingCrs(line) == 0 ==> StripCr(line) == line
  {
  }

  lemma {:induction false} StripAllRemovesOne(lines: seq<string>, n: nat)
    requires AllLines(lines, n)
    ensures AllLines(StripAll(lines), if n == 0 then 0 else n - 1)
    ensures n == 0 ==> StripAll(lines) == lines
  {
    if lines != [] {
      StripCrRemovesOne(lines[0]);
      StripAllRemovesOne(lines[1..], n);
      assert lines == [lines[0]] + lines[1..];
    }
  }

  lemma TemplateLines()
    ensures OneLine(HEADER) && OneLine(DUMMY) && TrailingCrs(HEADER) == 0 && TrailingCrs(DUMMY) == 0
  {
  }

  /** The rewrite adds no carriage return: its lines are the two fixed ones and copied ones. */
  lemma {:induction false} RewriteAddsNoCr(lines: seq<string>, inBlock: bool, n: nat)
    requires forall i :: 0 <= i < |lines| ==> OneLine(lines[i])
    ensures AllLines(Rewrite(lines, inBlock), n) <==> AllLines(Copied(lines, inBlock), n)
  {
    if lines != [] {
      TemplateLines();
      var blockNext := (!inBlock && IsHeader(lines[0])) || (inBlock && IsEntry(lines[0]));
      RewriteAddsNoCr(lines[1..], blockNext, n);
      if !inBlock && IsHeader(lines[0]) {
        AllLinesAppend([HEADER, DUMMY], Rewrite(lines[1..], true), n);
      } else if !blockNext {
        AllLinesAppend([lines[0]], Rewrite(lines[1..], false), n);
        AllLinesAppend([lines[0]], Copied(lines[1..], false), n);
      }
    }
  }

  lemma AllLinesAppend(a: seq<string>, b: seq<string>, n: nat)
    ensures AllLines(a + b, n) <==> AllLines(a, n) && AllLines(b, n)
  {
    if AllLines(a + b, n) {
      assert forall i :: 0 <= i < |a| ==> a[i] == (a + b)[i];
      assert forall i :: 0 <= i < |b| ==> b[i] == (a + b)[|a| + i];
    }
  }

  predicate EndsInCr(line: string) {
    line != "" && line[|line| - 1] == '\r'
  }

  predicate NoneEndsInCr(lines: seq<string>) {
    forall i :: 0 <= i < |lines| ==> !EndsInCr(lines[i])
  }

  lemma NoCrsMeansNone(lines: seq<string>, n: nat)
    requires AllLines(lines, n)
    ensures AllLines(lines, 0) <==> NoneEndsInCr(lines)
  {
    forall i | 0 <= i < |lines| ensures EndsInCr(lines[i]) <==> TrailingCrs(lines[i]) > 0 {
    }
  }

  lemma {:induction false} CopiedFromInput(lines: seq<string>, inBlock: bool, n: nat)
    requires AllLines(lines, n)
    ensures AllLines(Copied(lines, inBlock), n)
  {
    if lines != [] {
      var blockNext := (!inBlock && IsHeader(lines[0])) || (inBlock && IsEntry(lines[0]));
      CopiedFromInput(lines[1..], blockNext, n);
      if !blockNext {
        AllLinesAppend([lines[0]], Copied(lines[1..], false), n);
      }
    }
  }

  lemma {:induction false} CrsAtMostLength(line: string)
    ensures TrailingCrs(line) <= |line|
  {
    if line != "" {
      CrsAtMostLength(line[..|line| - 1]);
    }
  }

  lemma {:induction false} SomeBound(lines: seq<string>) returns (n: nat)
    requires forall i :: 0 <= i < |lines| ==> OneLine(lines[i])
    ensures AllLines(lines, n)
  {
    if lines == [] {
      n := 0;
    } else {
      var m := SomeBound(lines[1..]);
      n := m + |lines[0]|;
      CrsAtMostLength(lines[0]);
      forall i | 0 <= i < |lines| ensures TrailingCrs(lines[i]) <= n {
        if i > 0 {
          assert lines[i] == lines[1..][i - 1];
        }
      }
    }
  }

  lemma {:induction false} LeastBound(lines: seq<string>, n: nat) returns (m: nat)
    requires AllLines(lines, n) && !AllLines(lines, 0)
    ensures m > 0 && AllLines(lines, m) && !AllLines(lines, m - 1)
  {
    if AllLines(lines, n - 1) {
      m := LeastBound(lines, n - 1);
    } else {
      m := n;
    }
  }

  /** A document is left alone by a second pass exactly when no copied line still ends in a carriage
      return: reading strips one, so every pass would remove one more. */
  lemma IdempotentIff(yaml: string)
    ensures Neutralized(Neutralized(yaml)) == Neutralized(yaml)
       <==> NoneEndsInCr(Copied(Lines(yaml), false))
  {
    hide Rewrite, Copied, Lines, Unlines, StripAll;
    var lines := Lines(yaml);
    var once := Rewrite(lines, false);
    LinesAreOneLine(yaml);
    var n := SomeBound(lines);
    CopiedFromInput(lines, false, n);
    RewriteAddsNoCr(lines, false, n);
    RewriteAddsNoCr(lines, false, 0);
    LinesOfUnlines(once);
    NoCrsMeansNone(Copied(lines, false), n);
    if AllLines(once, 0) {
      StripAllRemovesOne(once, 0);
      RewriteTwice(lines, false);
    } else {
      var m := LeastBound(once, n);
      StripAllRemovesOne(once, m);
      CopiedFromInput(StripAll(once), false, m - 1);
      RewriteAddsNoCr(StripAll(once), false, m - 1);
      var twice := Rewrite(StripAll(once), false);
      assert twice != once;
      if Unlines(twice) == Unlines(once) {
        UnlinesInjective(twice, once);
        assert false;
      }
    }
  }

  /** Two carriage returns before a line feed lose one at each pass. */
  lemma SecondPassCanChange()
    ensures Neutralized("a\r\r\n") == "a\r\n" && Neutralized("a\r\n") == "a\n"
  {
    hide Neutralized, TrailingCrs;
    assert StripCr("a\r\r") == "a\r" && StripCr("a\r") == "a";
    assert "a\r\r" + "\n" == "a\r\r\n" && "a\r" + "\n" == "a\r\n" && "a" + "\n" == "a\n";
    assert !IsHeader("a\r") && !IsHeader("a");
    OneLineDocument("a\r\r");
    OneLineDocument("a\r");
  }

  lemma OneLineDocument(line: string)
    requires OneLine(line) && !IsHeader(StripCr(line))
    ensures Neutralized(line + "\n") == StripCr(line) + "\n"
  {
    assert line + "\n" + "" == line + "\n";
    assert Unlines([line]) == line + "\n" + Unlines([line][1..]);
    assert [line][1..] == [];
    LinesOfUnlines([line]);
    assert StripAll([line]) == [StripCr(line)];
    var out := [StripCr(line)];
    assert out[1..] == [];
    assert Rewrite(out, false) == out;
    assert Unlines(out) == StripCr(line) + "\n" + Unlines(out[1..]);
  }
}
