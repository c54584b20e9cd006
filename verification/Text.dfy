/** Python text operations, fragment indentation, the synthetic wrapper, fragment extraction and the
    oracle's text normal form (bigMoveBench/synthetic.py, dataset.py, oracle.py). */
module Text {
  import opened Wrappers

  // ----- str.isspace, str.splitlines, str.strip -----

  predicate IsBreak(c: char) {
    c == '\n' || c == '\r' || c == '\U{0B}' || c == '\U{0C}' || c == '\U{1C}' || c == '\U{1D}' || c == '\U{1E}'
    || c == '\U{85}' || c == '\U{2028}' || c == '\U{2029}'
  }

  predicate IsSpace(c: char) {
    IsBreak(c) || c == ' ' || c == '\t' || c == '\U{1F}' || c == '\U{A0}' || c == '\U{1680}'
    || '\U{2000}' <= c <= '\U{200A}' || c == '\U{202F}' || c == '\U{205F}' || c == '\U{3000}'
  }

  function SplitLines(s: string): (r: seq<string>)
    ensures s != "" ==> r != []
    ensures forall i :: 0 <= i < |r| ==> NoBreak(r[i])
  {
    if s == "" then []
    else if s[0] == '\r' && |s| > 1 && s[1] == '\n' then [""] + SplitLines(s[2..])
    else if IsBreak(s[0]) then [""] + SplitLines(s[1..])
    else if |s| == 1 then [s]
    else
      var rest := SplitLines(s[1..]);
      [[s[0]] + rest[0]] + rest[1..]
  }

  predicate NoBreak(line: string) {
    forall i :: 0 <= i < |line| ==> !IsBreak(line[i])
  }

  function LStrip(s: string): string {
    if s != "" && IsSpace(s[0]) then LStrip(s[1..]) else s
  }

  function RStrip(s: string): string {
    if s != "" && IsSpace(s[|s| - 1]) then RStrip(s[..|s| - 1]) else s
  }

  function Strip(s: string): string { RStrip(LStrip(s)) }

  // s.rstrip("\n")
  function RStripLF(s: string): string {
    if s != "" && s[|s| - 1] == '\n' then RStripLF(s[..|s| - 1]) else s
  }

  // "\n".join(lines)
  function Join(lines: seq<string>): string {
    if lines == [] then ""
    else if |lines| == 1 then lines[0]
    else lines[0] + "\n" + Join(lines[1..])
  }

  // s.split("\n")
  function SplitLF(s: string): (r: seq<string>)
    ensures r != []
  {
    if s == "" then [""]
    else
      var rest := SplitLF(s[1..]);
      if s[0] == '\n' then [""] + rest else [[s[0]] + rest[0]] + rest[1..]
  }

  function Map(f: string -> string, lines: seq<string>): (r: seq<string>)
    ensures |r| == |lines| && forall i :: 0 <= i < |r| ==> r[i] == f(lines[i])
  {
    seq(|lines|, i requires 0 <= i < |lines| => f(lines[i]))
  }

  // ----- the source functions -----

  function IndentLine(line: string): string { if line == "" then "" else "  " + line }

  /** `indent_fragment`. */
  function IndentFragment(fragment: string): string {
    Join(Map(IndentLine, SplitLines(fragment))) + "\n"
  }

  /** `_append_block`: the extended lines; the block's range is |lines|+1 to the new length. */
  function AppendBlock(lines: seq<string>, block: string): seq<string> {
    lines + SplitLines(RStripLF(block))
  }

  datatype Unit = Unit(text: string, firstLine: nat, lastLine: nat)

  /** `_build_archive_unit` with a fragment: a header, the fragment and a closing brace. */
  function BuildUnit(header: string, fragment: string): Unit {
    var top := AppendBlock([], header);
    var body := AppendBlock(top, fragment);
    Unit(Join(AppendBlock(body, "}")) + "\n", |top| + 1, |body|)
  }

  datatype ExtractError = InvalidRange | RangeTooLong | EmptyRange

  function DropCR(line: string): string {
    if line != "" && line[|line| - 1] == '\r' then line[..|line| - 1] else line
  }

  /** `extract_bytes` on decoded text. */
  function Extract(text: string, firstLine: int, lastLine: int): Result<string, ExtractError> {
    if firstLine < 1 || lastLine < firstLine then Err(InvalidRange)
    else
      var lines := SplitLF(text);
      if lastLine > |lines| then Err(RangeTooLong)
      else
        var value := RStrip(Join(Map(DropCR, lines[firstLine - 1..lastLine]))) + "\n";
        if Strip(value) == "" then Err(EmptyRange) else Ok(value)
  }

  /** A text has a line more than it has line feeds; a range beyond them is too long, and one without lines or
      before the first line invalid. */
  lemma {:induction false} RangeErrorsAreExact(text: string, firstLine: int, lastLine: int)
    ensures |SplitLF(text)| == multiset(text)['\n'] + 1
    ensures Extract(text, firstLine, lastLine) == Err(InvalidRange) <==> firstLine < 1 || lastLine < firstLine
    ensures Extract(text, firstLine, lastLine) == Err(RangeTooLong) <==>
            1 <= firstLine <= lastLine && lastLine > multiset(text)['\n'] + 1
  {
    LineFeeds(text);
  }

  lemma {:induction false} LineFeeds(text: string)
    ensures |SplitLF(text)| == multiset(text)['\n'] + 1
  {
    if text != "" {
      LineFeeds(text[1..]);
      assert text == [text[0]] + text[1..];
    }
  }

  /** `normalize_moved_text`. */
  function Normalize(value: string): string { Join(Map(Strip, SplitLines(Strip(value)))) }

  // ----- stripping -----

  lemma {:induction false} LStripShape(s: string)
    ensures LStrip(s) == "" || !IsSpace(LStrip(s)[0])
    ensures forall i :: 0 <= i < |LStrip(s)| ==> LStrip(s)[i] in s
  {
    if s != "" && IsSpace(s[0]) { LStripShape(s[1..]); }
  }

  lemma {:induction false} RStripShape(s: string)
    ensures RStrip(s) == "" || !IsSpace(RStrip(s)[|RStrip(s)| - 1])
    ensures RStrip(s) <= s
  {
    if s != "" && IsSpace(s[|s| - 1]) { RStripShape(s[..|s| - 1]); }
  }

  ghost predicate Stripped(s: string) {
    s == "" || (!IsSpace(s[0]) && !IsSpace(s[|s| - 1]))
  }

  lemma {:induction false} StripShape(s: string)
    ensures Stripped(Strip(s))
    ensures NoBreak(s) ==> NoBreak(Strip(s))
  {
    LStripShape(s);
    RStripShape(LStrip(s));
    if NoBreak(s) {
      forall i | 0 <= i < |Strip(s)| ensures !IsBreak(Strip(s)[i]) {
        assert Strip(s)[i] == LStrip(s)[i] && LStrip(s)[i] in s;
      }
    }
  }

  lemma {:induction false} StripFixesStripped(s: string)
    requires Stripped(s)
    ensures Strip(s) == s
  {
  }

  // Blanks at either end do not matter.
  lemma {:induction false} StripPrepend(c: char, s: string)
    requires IsSpace(c)
    ensures Strip([c] + s) == Strip(s)
  {
    assert ([c] + s)[1..] == s;
  }

  lemma {:induction false} StripAppend(s: string, c: char)
    requires IsSpace(c)
    ensures Strip(s + [c]) == Strip(s)
  {
    if s == "" {
      assert [c][1..] == "" && s + [c] == [c];
      assert LStrip([c]) == LStrip("");
    } else if IsSpace(s[0]) {
      assert (s + [c])[1..] == s[1..] + [c];
      StripAppend(s[1..], c);
    } else {
      assert (s + [c])[..|s|] == s;
    }
  }

  // ----- splitting and joining -----

  lemma {:induction false} SplitPrepend(line: string, s: string)
    requires NoBreak(line) && line != ""
    ensures SplitLines(line + "\n" + s) == [line] + SplitLines(s)
    ensures SplitLines(line) == [line]
  {
    var t := line + "\n" + s;
    if |line| == 1 {
      assert t[1..] == "\n" + s && ("\n" + s)[1..] == s;
      assert [line[0]] + "" == line;
    } else {
      assert t[1..] == line[1..] + "\n" + s;
      assert NoBreak(line[1..]);
      SplitPrepend(line[1..], s);
      assert [line[0]] + line[1..] == line;
    }
  }

  lemma {:induction false} SplitPrependAny(line: string, s: string)
    requires NoBreak(line)
    ensures SplitLines(line + "\n" + s) == [line] + SplitLines(s)
  {
    if line == "" { assert (line + "\n" + s)[1..] == s; } else { SplitPrepend(line, s); }
  }

  // splitlines undoes the join of break-free lines whose last line is not blank ...
  lemma {:induction false} SplitJoin(lines: seq<string>)
    requires lines != [] && lines[|lines| - 1] != "" && forall i :: 0 <= i < |lines| ==> NoBreak(lines[i])
    ensures SplitLines(Join(lines)) == lines
  {
    if |lines| == 1 {
      SplitPrepend(lines[0], "");
    } else {
      SplitJoin(lines[1..]);
      SplitPrependAny(lines[0], Join(lines[1..]));
      assert lines == [lines[0]] + lines[1..];
    }
  }

  // ... and of any break-free lines that a final LF closes.
  lemma {:induction false} SplitJoinLF(lines: seq<string>)
    requires lines != [] && forall i :: 0 <= i < |lines| ==> NoBreak(lines[i])
    ensures SplitLines(Join(lines) + "\n") == lines
  {
    if |lines| == 1 {
      SplitPrependAny(lines[0], "");
      assert lines[0] + "\n" + "" == lines[0] + "\n";
    } else {
      SplitJoinLF(lines[1..]);
      SplitPrependAny(lines[0], Join(lines[1..]) + "\n");
      assert Join(lines) + "\n" == lines[0] + "\n" + (Join(lines[1..]) + "\n");
      assert lines == [lines[0]] + lines[1..];
    }
  }

  lemma {:induction false} SplitLFPrepend(line: string, s: string)
    requires NoBreak(line)
    ensures SplitLF(line + "\n" + s) == [line] + SplitLF(s)
  {
    var t := line + "\n" + s;
    if line == "" {
      assert t[1..] == s;
    } else {
      assert t[1..] == line[1..] + "\n" + s;
      assert NoBreak(line[1..]);
      SplitLFPrepend(line[1..], s);
      assert [line[0]] + line[1..] == line;
    }
  }

  lemma {:induction false} SplitLFJoin(lines: seq<string>)
    requires lines != [] && forall i :: 0 <= i < |lines| ==> NoBreak(lines[i])
    ensures SplitLF(Join(lines) + "\n") == lines + [""]
  {
    if |lines| == 1 {
      SplitLFPrepend(lines[0], "");
      assert lines[0] + "\n" + "" == lines[0] + "\n";
    } else {
      SplitLFJoin(lines[1..]);
      SplitLFPrepend(lines[0], Join(lines[1..]) + "\n");
      assert Join(lines) + "\n" == lines[0] + "\n" + (Join(lines[1..]) + "\n");
      assert lines + [""] == [lines[0]] + (lines[1..] + [""]);
    }
  }

  // The lines of a text that ends in `last`, after one more character.
  function AppendChar(lines: seq<string>, last: char, c: char): seq<string>
    requires lines != []
  {
    var n := |lines| - 1;
    if last == '\r' && c == '\n' then lines
    else if IsBreak(last) then lines + [if IsBreak(c) then "" else [c]]
    else if IsBreak(c) then lines
    else lines[..n] + [lines[n] + [c]]
  }

  // A character put in front of the first line.
  function PrependChar(c: char, lines: seq<string>): seq<string>
    requires lines != []
  {
    [[c] + lines[0]] + lines[1..]
  }

  lemma {:induction false} AppendBehindLine(x: string, lines: seq<string>, last: char, c: char)
    requires lines != []
    ensures AppendChar([x] + lines, last, c) == [x] + AppendChar(lines, last, c)
  {
    var n := |lines| - 1;
    assert ([x] + lines)[..n + 1] == [x] + lines[..n];
  }

  lemma {:induction false} AppendBehindChar(b: char, lines: seq<string>, last: char, c: char)
    requires lines != []
    ensures AppendChar(PrependChar(b, lines), last, c) == PrependChar(b, AppendChar(lines, last, c))
  {
    if |lines| == 1 {
      assert [b] + (lines[0] + [c]) == ([b] + lines[0]) + [c];
    }
  }

  lemma {:induction false} SplitOne(c: char)
    ensures SplitLines([c]) == if IsBreak(c) then [""] else [[c]]
  {
    assert [c][1..] == "" && SplitLines("") == [];
  }

  lemma {:induction false} SplitTwo(b: char, c: char)
    ensures SplitLines([b] + [c]) == AppendChar(SplitLines([b]), b, c)
  {
    SplitOne(b);
    SplitOne(c);
    var t := [b] + [c];
    assert t[1..] == [c] && t[2..] == "" && SplitLines("") == [];
    if b == '\r' && c == '\n' {
    } else if IsBreak(b) {
      assert SplitLines(t) == [""] + SplitLines([c]);
    } else {
      assert SplitLines(t) == PrependChar(b, SplitLines([c]));
      assert [b] + "" == [b] && [b] + [c] == t;
    }
  }

  // What one more character does to the lines.
  lemma {:induction false} SplitAppend(s: string, c: char)
    requires s != ""
    ensures SplitLines(s + [c]) == AppendChar(SplitLines(s), s[|s| - 1], c)
  {
    var t := s + [c];
    if |s| == 1 {
      SplitTwo(s[0], c);
      assert s == [s[0]];
    } else if s[0] == '\r' && s[1] == '\n' {
      assert t[2..] == s[2..] + [c];
      if |s| == 2 {
        SplitOne(c);
        assert s[2..] + [c] == [c] && s[2..] == "";
      } else {
        SplitAppend(s[2..], c);
        AppendBehindLine("", SplitLines(s[2..]), s[|s| - 1], c);
      }
    } else {
      assert t[1..] == s[1..] + [c];
      SplitAppend(s[1..], c);
      if IsBreak(s[0]) {
        AppendBehindLine("", SplitLines(s[1..]), s[|s| - 1], c);
      } else {
        AppendBehindChar(s[0], SplitLines(s[1..]), s[|s| - 1], c);
      }
    }
  }

  // ----- blank-trimmed stripped lines: what Normalize keeps -----

  function Lines(s: string): seq<string> { Map(Strip, SplitLines(s)) }

  function TrimFront(lines: seq<string>): seq<string> {
    if lines != [] && lines[0] == "" then TrimFront(lines[1..]) else lines
  }

  function TrimBack(lines: seq<string>): seq<string> {
    if lines != [] && lines[|lines| - 1] == "" then TrimBack(lines[..|lines| - 1]) else lines
  }

  lemma {:induction false} TrimBackDrops(lines: seq<string>)
    ensures TrimBack(lines + [""]) == TrimBack(lines)
  {
    assert (lines + [""])[..|lines|] == lines;
  }

  lemma {:induction false} TrimBackKeepsFront(x: string, lines: seq<string>)
    ensures TrimBack([x] + lines) == if TrimBack(lines) == [] then TrimBack([x]) else [x] + TrimBack(lines)
  {
    if lines == [] {
      assert [x] + lines == [x];
    } else if lines[|lines| - 1] == "" {
      assert ([x] + lines)[..|lines|] == [x] + lines[..|lines| - 1];
      TrimBackKeepsFront(x, lines[..|lines| - 1]);
    }
  }

  lemma {:induction false} TrimsCommute(lines: seq<string>)
    ensures TrimBack(TrimFront(lines)) == TrimFront(TrimBack(lines))
  {
    if lines != [] {
      assert lines == [lines[0]] + lines[1..];
      TrimBackKeepsFront(lines[0], lines[1..]);
      if lines[0] == "" {
        TrimsCommute(lines[1..]);
        assert TrimBack([""]) == [] by { assert [""][..0] == []; }
        assert ([""] + TrimBack(lines[1..]))[1..] == TrimBack(lines[1..]);
      } else {
        assert TrimBack([lines[0]]) == [lines[0]];
      }
    }
  }

  function Trim(lines: seq<string>): seq<string> { TrimBack(TrimFront(lines)) }

  // Dropping a leading blank character keeps the trimmed lines.
  lemma {:induction false} LinesDropFront(c: char, s: string)
    requires IsSpace(c)
    ensures TrimFront(Lines([c] + s)) == TrimFront(Lines(s))
  {
    var t := [c] + s;
    assert t[1..] == s;
    if c == '\r' && s != "" && s[0] == '\n' {
      assert t[2..] == s[1..];
      assert SplitLines(t) == SplitLines(s);
    } else if IsBreak(c) {
      assert SplitLines(t) == [""] + SplitLines(s);
      assert Lines(t) == [""] + Lines(s) by { assert Strip("") == ""; }
      assert Lines(t)[1..] == Lines(s);
    } else if s == "" {
      StripPrepend(c, "");
      assert t == [c] && SplitLines(t) == [t];
      assert Lines(t) == [""] && [""][1..] == [];
    } else {
      var rest := SplitLines(s);
      assert SplitLines(t) == [[c] + rest[0]] + rest[1..];
      StripPrepend(c, rest[0]);
      assert Lines(t) == Lines(s);
    }
  }

  lemma {:induction false} StripBlank(c: char)
    requires IsSpace(c)
    ensures Strip([c]) == "" && Strip("") == ""
  {
    StripAppend("", c);
    assert "" + [c] == [c];
  }

  lemma {:induction false} MapAppend(f: string -> string, lines: seq<string>, x: string)
    ensures Map(f, lines + [x]) == Map(f, lines) + [f(x)]
  {
  }

  lemma {:induction false} LinesOfBlank(c: char)
    requires IsSpace(c)
    ensures Lines([c]) == [""] && Lines("") == []
  {
    StripBlank(c);
    SplitOne(c);
    assert SplitLines("") == [];
  }

  // One more blank character at the end changes the lines at most by an empty last line.
  lemma {:induction false} BlankAppended(lines: seq<string>, last: char, c: char)
    requires lines != [] && IsSpace(c)
    ensures Map(Strip, AppendChar(lines, last, c)) == Map(Strip, lines)
         || Map(Strip, AppendChar(lines, last, c)) == Map(Strip, lines) + [""]
  {
    StripBlank(c);
    if last == '\r' && c == '\n' {
    } else if IsBreak(last) {
      MapAppend(Strip, lines, if IsBreak(c) then "" else [c]);
    } else if !IsBreak(c) {
      var n := |lines| - 1;
      StripAppend(lines[n], c);
      MapAppend(Strip, lines[..n], lines[n] + [c]);
      MapAppend(Strip, lines[..n], lines[n]);
      assert lines == lines[..n] + [lines[n]];
    }
  }

  // Dropping a trailing blank character keeps the trimmed lines.
  lemma {:induction false} LinesDropBack(s: string, c: char)
    requires IsSpace(c)
    ensures TrimBack(Lines(s + [c])) == TrimBack(Lines(s))
  {
    if s == "" {
      LinesOfBlank(c);
      assert s + [c] == [c] && [] + [""] == [""];
      TrimBackDrops([]);
    } else {
      SplitAppend(s, c);
      BlankAppended(SplitLines(s), s[|s| - 1], c);
      TrimBackDrops(Lines(s));
    }
  }

  lemma {:induction false} LinesOfLStrip(s: string)
    ensures TrimFront(Lines(LStrip(s))) == TrimFront(Lines(s))
  {
    if s != "" && IsSpace(s[0]) {
      LinesOfLStrip(s[1..]);
      LinesDropFront(s[0], s[1..]);
      assert [s[0]] + s[1..] == s;
    }
  }

  lemma {:induction false} LinesOfRStrip(s: string)
    ensures TrimBack(Lines(RStrip(s))) == TrimBack(Lines(s))
  {
    if s != "" && IsSpace(s[|s| - 1]) {
      var rest, last := s[..|s| - 1], s[|s| - 1];
      assert rest + [last] == s;
      LinesOfRStrip(rest);
      LinesDropBack(rest, last);
    }
  }

  lemma {:induction false} FirstLineStarts(s: string)
    requires s != "" && !IsBreak(s[0])
    ensures SplitLines(s)[0] != "" && SplitLines(s)[0][0] == s[0]
  {
  }

  lemma {:induction false} LastLineEnds(s: string)
    requires s != "" && !IsBreak(s[|s| - 1])
    ensures var r := SplitLines(s);
            r[|r| - 1] != "" && r[|r| - 1][|r[|r| - 1]| - 1] == s[|s| - 1]
  {
    if |s| > 1 {
      var n := |s| - 1;
      SplitAppend(s[..n], s[n]);
      assert s[..n] + [s[n]] == s;
    }
  }

  lemma {:induction false} StripKeepsNonBlankEnds(s: string)
    requires s != "" && (!IsSpace(s[0]) || !IsSpace(s[|s| - 1]))
    ensures Strip(s) != ""
  {
    if !IsSpace(s[0]) {
      RStripKeepsNonBlank(s);
    } else {
      LStripKeepsNonBlank(s);
    }
  }

  lemma {:induction false} RStripKeepsNonBlank(s: string)
    requires s != "" && !IsSpace(s[0])
    ensures RStrip(s) != ""
  {
    if IsSpace(s[|s| - 1]) { RStripKeepsNonBlank(s[..|s| - 1]); }
  }

  lemma {:induction false} LStripKeepsNonBlank(s: string)
    requires s != "" && !IsSpace(s[|s| - 1])
    ensures LStrip(s) != "" && !IsSpace(LStrip(s)[|LStrip(s)| - 1])
  {
    if IsSpace(s[0]) { LStripKeepsNonBlank(s[1..]); }
  }

  // A stripped text has no blank line at either end.
  lemma {:induction false} StrippedLinesNeedNoTrim(s: string)
    requires Stripped(s)
    ensures Trim(Lines(s)) == Lines(s)
  {
    if s != "" {
      FirstLineStarts(s);
      LastLineEnds(s);
      var r := SplitLines(s);
      StripKeepsNonBlankEnds(r[0]);
      StripKeepsNonBlankEnds(r[|r| - 1]);
    }
  }

  /** Normalizing keeps exactly the stripped lines between the outermost non-blank ones. */
  lemma {:induction false} NormalizeIsTrim(value: string)
    ensures Normalize(value) == Join(Trim(Lines(value)))
  {
    var l := LStrip(value);
    LinesOfLStrip(value);
    LinesOfRStrip(l);
    TrimsCommute(Lines(l));
    TrimsCommute(Lines(Strip(value)));
    StripShape(value);
    StrippedLinesNeedNoTrim(Strip(value));
  }

  // ----- the two theorems about normalized text -----

  lemma {:induction false} TrimShape(lines: seq<string>)
    ensures Trim(lines) == [] || (Trim(lines)[0] != "" && Trim(lines)[|Trim(lines)| - 1] != "")
    ensures forall i :: 0 <= i < |Trim(lines)| ==> Trim(lines)[i] in lines
  {
    TrimFrontShape(lines);
    TrimBackShape(TrimFront(lines));
  }

  lemma {:induction false} TrimFrontShape(lines: seq<string>)
    ensures TrimFront(lines) == [] || TrimFront(lines)[0] != ""
    ensures forall i :: 0 <= i < |TrimFront(lines)| ==> TrimFront(lines)[i] in lines
  {
    if lines != [] && lines[0] == "" { TrimFrontShape(lines[1..]); }
  }

  lemma {:induction false} TrimBackShape(lines: seq<string>)
    ensures TrimBack(lines) == [] || TrimBack(lines)[|TrimBack(lines)| - 1] != ""
    ensures TrimBack(lines) <= lines
  {
    if lines != [] && lines[|lines| - 1] == "" { TrimBackShape(lines[..|lines| - 1]); }
  }

  // The trimmed lines of a text are stripped.
  lemma {:induction false} TrimmedLines(value: string)
    ensures var t := Trim(Lines(value));
            && (t != [] ==> t[|t| - 1] != "")
            && forall i :: 0 <= i < |t| ==> Strip(t[i]) == t[i] && NoBreak(t[i])
  {
    var t := Trim(Lines(value));
    TrimShape(Lines(value));
    forall i | 0 <= i < |t| ensures Strip(t[i]) == t[i] && NoBreak(t[i]) {
      var j :| 0 <= j < |Lines(value)| && Lines(value)[j] == t[i];
      StripShape(SplitLines(value)[j]);
      StripFixesStripped(t[i]);
    }
  }

  // Joined stripped lines are read back.
  lemma {:induction false} LinesOfJoin(t: seq<string>)
    requires t != [] ==> t[|t| - 1] != ""
    requires forall i :: 0 <= i < |t| ==> Strip(t[i]) == t[i] && NoBreak(t[i])
    ensures Lines(Join(t)) == t
  {
    if t != [] { SplitJoin(t); }
    assert forall i :: 0 <= i < |t| ==> Map(Strip, t)[i] == t[i];
  }

  /** Normalizing twice is normalizing once. */
  lemma {:induction false} NormalizeIsIdempotent(value: string)
    ensures Normalize(Normalize(value)) == Normalize(value)
  {
    var t := Trim(Lines(value));
    NormalizeIsTrim(value);
    NormalizeIsTrim(Join(t));
    TrimmedLines(value);
    LinesOfJoin(t);
    TrimTwice(Lines(value));
  }

  lemma {:induction false} TrimTwice(lines: seq<string>)
    ensures Trim(Trim(lines)) == Trim(lines)
  {
    TrimShape(lines);
  }

  lemma {:induction false} IndentedLine(line: string)
    requires NoBreak(line)
    ensures NoBreak(IndentLine(line)) && Strip(IndentLine(line)) == Strip(line)
  {
    StripPrepend(' ', line);
    StripPrepend(' ', " " + line);
    assert [' '] + ([' '] + line) == "  " + line;
  }

  lemma {:induction false} IndentedStrips(lines: seq<string>)
    requires forall i :: 0 <= i < |lines| ==> NoBreak(lines[i])
    ensures Map(Strip, Map(IndentLine, lines)) == Map(Strip, lines)
    ensures forall i :: 0 <= i < |lines| ==> NoBreak(Map(IndentLine, lines)[i])
  {
    forall i | 0 <= i < |lines|
      ensures NoBreak(IndentLine(lines[i])) && Strip(IndentLine(lines[i])) == Strip(lines[i])
    {
      IndentedLine(lines[i]);
    }
  }

  // The lines of a non-empty indented fragment.
  lemma {:induction false} LinesOfIndented(fragment: string)
    requires SplitLines(fragment) != []
    ensures Lines(IndentFragment(fragment)) == Lines(fragment)
  {
    IndentedStrips(SplitLines(fragment));
    SplitJoinLF(Map(IndentLine, SplitLines(fragment)));
  }

  /** Indentation is invisible to the oracle: normalizing an indented fragment is normalizing the
      fragment, for every text. */
  lemma {:induction false} NormalizeIgnoresIndentation(fragment: string)
    ensures Normalize(IndentFragment(fragment)) == Normalize(fragment)
  {
    NormalizeIsTrim(fragment);
    NormalizeIsTrim(IndentFragment(fragment));
    if SplitLines(fragment) == [] {
      LinesOfBlank('\n');
      assert IndentFragment(fragment) == "\n" == ['\n'];
      assert [""][1..] == [];
    } else {
      LinesOfIndented(fragment);
    }
  }

  // ----- the wrapper round trip -----

  /** What `extract_bytes` returns: non-blank text closed by a single LF. */
  predicate NormalForm(fragment: string) {
    |fragment| >= 2 && fragment[|fragment| - 1] == '\n' && !IsSpace(fragment[|fragment| - 2])
  }

  lemma {:induction false} ExtractYieldsNormalForm(text: string, firstLine: int, lastLine: int)
    requires Extract(text, firstLine, lastLine).Ok?
    ensures NormalForm(Extract(text, firstLine, lastLine).value)
  {
    var value := RStrip(Join(Map(DropCR, SplitLF(text)[firstLine - 1..lastLine])));
    RStripShape(Join(Map(DropCR, SplitLF(text)[firstLine - 1..lastLine])));
    assert Strip("\n") == "" by {
      StripPrepend('\n', "");
      assert ['\n'] + "" == "\n";
    }
    assert value == "" ==> value + "\n" == "\n";
  }

  // The lines of a fragment in normal form, and the blank-free end of the last one.
  lemma {:induction false} FragmentLines(fragment: string)
    requires NormalForm(fragment)
    ensures var r := SplitLines(fragment);
            var last := r[|r| - 1];
            r != [] && last != "" && !IsSpace(last[|last| - 1])
  {
    var n := |fragment| - 1;
    SplitAppend(fragment[..n], '\n');
    LastLineEnds(fragment[..n]);
    assert fragment[..n] + ['\n'] == fragment;
  }

  lemma {:induction false} JoinEnds(lines: seq<string>)
    requires lines != [] && lines[|lines| - 1] != ""
    ensures Join(lines) != ""
    ensures Join(lines)[|Join(lines)| - 1] == lines[|lines| - 1][|lines[|lines| - 1]| - 1]
  {
    if |lines| > 1 { JoinEnds(lines[1..]); }
  }

  // What a closing LF does to text that does not end in a blank.
  lemma {:induction false} ClosedText(j: string)
    requires j != "" && !IsSpace(j[|j| - 1])
    ensures RStrip(j) == j && RStripLF(j + "\n") == j && Strip(j + "\n") != ""
  {
    assert (j + "\n")[..|j|] == j;
    LStripKeepsNonBlank(j);
    StripAppend(j, '\n');
    StripKeepsNonBlankEnds(j);
  }

  lemma {:induction false} IndentedEnd(fragment: string)
    requires NormalForm(fragment)
    ensures var r := Map(IndentLine, SplitLines(fragment));
            r != [] && r[|r| - 1] != "" && !IsSpace(r[|r| - 1][|r[|r| - 1]| - 1])
  {
    FragmentLines(fragment);
  }

  lemma {:induction false} IndentedLines(fragment: string)
    requires NormalForm(fragment)
    ensures var r := Map(IndentLine, SplitLines(fragment));
            && r != []
            && (forall i :: 0 <= i < |r| ==> NoBreak(r[i]))
            && SplitLines(RStripLF(IndentFragment(fragment))) == r
            && RStrip(Join(r)) == Join(r)
            && Strip(Join(r) + "\n") != ""
  {
    var r := Map(IndentLine, SplitLines(fragment));
    IndentedEnd(fragment);
    IndentedStrips(SplitLines(fragment));
    JoinEnds(r);
    ClosedText(Join(r));
    SplitJoin(r);
  }

  lemma {:induction false} NoCarriageReturns(lines: seq<string>)
    requires forall i :: 0 <= i < |lines| ==> NoBreak(lines[i])
    ensures Map(DropCR, lines) == lines
  {
  }

  lemma {:induction false} ConcatNoBreak(a: seq<string>, b: seq<string>)
    requires forall i :: 0 <= i < |a| ==> NoBreak(a[i])
    requires forall i :: 0 <= i < |b| ==> NoBreak(b[i])
    ensures forall i :: 0 <= i < |a + b| ==> NoBreak((a + b)[i])
  {
  }

  // The lines of the wrapper: the header, the payload and the closing brace.
  lemma {:induction false} UnitLines(header: string, fragment: string)
    requires NormalForm(fragment)
    ensures var top := AppendBlock([], header);
            var payload := Map(IndentLine, SplitLines(fragment));
            var body := AppendBlock(top, IndentFragment(fragment));
            var lines := AppendBlock(body, "}");
            && body == top + payload && payload != []
            && SplitLF(Join(lines) + "\n") == lines + [""]
            && (lines + [""])[|top|..|body|] == payload
  {
    var top := AppendBlock([], header);
    var payload := Map(IndentLine, SplitLines(fragment));
    IndentedLines(fragment);
    ConcatNoBreak([], SplitLines(RStripLF(header)));
    ConcatNoBreak(top, payload);
    ConcatNoBreak(top + payload, SplitLines(RStripLF("}")));
    SplitLFJoin(AppendBlock(top + payload, "}"));
  }

  /** The wrapper round trip: for any header and any fragment in normal form, extracting the range
      that the wrapper reports for the indented fragment gives exactly the indented fragment. */
  lemma {:induction false} WrapperRoundTrip(header: string, fragment: string)
    requires NormalForm(fragment)
    ensures var u := BuildUnit(header, IndentFragment(fragment));
            Extract(u.text, u.firstLine, u.lastLine) == Ok(IndentFragment(fragment))
  {
    UnitLines(header, fragment);
    IndentedLines(fragment);
    NoCarriageReturns(Map(IndentLine, SplitLines(fragment)));
  }

  /** Extraction, wrapping and normalization compose: whatever range of a source file a fragment was
      extracted from, the oracle sees the same text in the wrapper as in the source. */
  lemma {:induction false} WrappedFragmentIsRecognized(header: string, text: string, firstLine: int, lastLine: int)
    requires Extract(text, firstLine, lastLine).Ok?
    ensures var fragment := Extract(text, firstLine, lastLine).value;
            var u := BuildUnit(header, IndentFragment(fragment));
            && Extract(u.text, u.firstLine, u.lastLine).Ok?
            && Normalize(Extract(u.text, u.firstLine, u.lastLine).value) == Normalize(fragment)
  {
    var fragment := Extract(text, firstLine, lastLine).value;
    ExtractYieldsNormalForm(text, firstLine, lastLine);
    WrapperRoundTrip(header, fragment);
    NormalizeIgnoresIndentation(fragment);
  }
}
