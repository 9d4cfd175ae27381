/** Printing cleaned blocks as section text, and reading them back: the fence around a piece of code is
    longer than any run of backticks inside it, so the code is returned as one block. */
module Fences {
  import opened Common
  import opened Text
  import opened TokenCounter
  import opened Markdown

  // ---------- the printer ----------

  /** A block of cleaned content: code with its detected language, or any other text. */
  datatype CleanBlock = Code(code: Str, language: Option<Str>) | Prose(text: Str)

  /** The longest run of backticks. */
  function Longest(s: Str): nat {
    if s == [] then 0
    else
      var here, later := TickRun(s), Longest(s[1..]);
      if here > later then here else later
  }

  function Ticks(n: nat): Str {
    seq(n, _ => Tick)
  }

  /** _code_fence */
  function CodeFence(code: Str): Str {
    Ticks(if Longest(code) + 1 > 3 then Longest(code) + 1 else 3)
  }

  function Info(language: Option<Str>): Str {
    if language.None? then [] else language.value
  }

  function Wrapped(fence: Str, language: Option<Str>, code: Str): Str {
    fence + Info(language) + [LF] + code + [LF] + fence
  }

  function Print(b: CleanBlock): Str {
    match b
    case Code(code, language) => Wrapped(CodeFence(code), language, code)
    case Prose(text) => text
  }

  function PrintAll(bs: seq<CleanBlock>): (r: seq<Str>)
    ensures |r| == |bs| && forall i :: 0 <= i < |r| ==> r[i] == Print(bs[i])
  {
    seq(|bs|, i requires 0 <= i < |bs| => Print(bs[i]))
  }

  predicate StartsWithThree(s: Str) {
    |s| >= 3 && s[0] == LF && s[1] == LF && s[2] == LF
  }

  /** Every run of three or more line feeds becomes one of two. */
  function Collapse(s: Str): Str {
    if s == [] then []
    else if StartsWithThree(s) then Collapse(s[1..])
    else [s[0]] + Collapse(s[1..])
  }

  /** The text of clean_html: the printed blocks, blank lines collapsed, stripped. */
  function CleanText(bs: seq<CleanBlock>): Str {
    Strip(Collapse(Join(PrintAll(bs), [LF, LF])))
  }

  // ---------- what the cleaner hands to the printer ----------

  /** Code as _normalize_code leaves it; text without white space at its ends. */
  predicate Clean(b: CleanBlock) {
    match b
    case Code(code, language) =>
      && code != [] && CR !in code && code[0] != LF && code[|code| - 1] != LF
      && (language.Some? ==>
            && language.value != [] && Folded(language.value) == language.value
            && LanguageRun(language.value) == |language.value|)
    case Prose(text) =>
      text != [] && CR !in text && Strip(text) == text
  }

  /** The line continues a paragraph. */
  predicate ProseLine(line: Str) {
    Strip(line) != [] && !OpensFence(Strip(line))
  }

  predicate ProseOnly(lines: seq<Str>) {
    forall i :: 0 <= i < |lines| ==> ProseLine(lines[i])
  }

  /** No text has a blank line or a line that opens a fence. */
  predicate Printable(b: CleanBlock) {
    Clean(b) && (b.Prose? ==> ProseOnly(Lines(b.text)))
  }

  /** The block that the chunker reads for `b`. */
  function ReadBack(b: CleanBlock): Block {
    match b
    case Code(code, language) => Block(Wrapped(CodeFence(code), language, Collapse(code)), true, language)
    case Prose(text) => Block(text, false, None)
  }

  function ReadBackAll(bs: seq<CleanBlock>): (r: seq<Block>)
    ensures |r| == |bs| && forall i :: 0 <= i < |r| ==> r[i] == ReadBack(bs[i])
  {
    seq(|bs|, i requires 0 <= i < |bs| => ReadBack(bs[i]))
  }

  // ---------- collapsing ----------

  lemma {:induction false} CollapseConcat(a: Str, b: Str)
    requires a == [] || a[|a| - 1] != LF || b == [] || b[0] != LF
    ensures Collapse(a + b) == Collapse(a) + Collapse(b)
  {
    if a == [] {
      assert a + b == b;
    } else if |a| == 1 {
      assert (a + b)[1..] == b && a[1..] == [];
      assert !StartsWithThree(a + b);
    } else {
      assert (a + b)[1..] == a[1..] + b;
      assert StartsWithThree(a + b) == StartsWithThree(a) by {
        if |a| == 2 { assert (a + b)[1] == a[1]; }
      }
      CollapseConcat(a[1..], b);
    }
  }

  lemma {:induction false} CollapseSame(s: Str)
    requires LF !in s
    ensures Collapse(s) == s
  {
    if s != [] {
      CollapseSame(s[1..]);
    }
  }

  lemma CollapseLine(line: Str, rest: Str)
    requires line != [] && LF !in line && (rest == [] || rest[0] != LF) && Collapse(rest) == rest
    ensures Collapse(line + [LF] + rest) == line + [LF] + rest
  {
    hide Collapse;
    CollapseSame(line);
    CollapseFeedFirst(rest);
    CollapseConcat(line, [LF] + rest);
    assert line + ([LF] + rest) == line + [LF] + rest;
  }

  lemma CollapseFeedFirst(rest: Str)
    requires (rest == [] || rest[0] != LF) && Collapse(rest) == rest
    ensures Collapse([LF] + rest) == [LF] + rest
  {
    assert ([LF] + rest)[1..] == rest;
    assert !StartsWithThree([LF] + rest);
  }

  lemma FirstLine(s: Str)
    requires s != []
    ensures Lines(s) != []
    ensures Lines(s)[0] != [] ==> s[0] != LF
  {
  }

  /** Text without an empty line is left alone. */
  lemma {:induction false} CollapseProse(s: Str)
    requires forall i :: 0 <= i < |Lines(s)| ==> Lines(s)[i] != []
    ensures Collapse(s) == s
    decreases |s|
  {
    hide Collapse, LineEnd;
    var e := LineEnd(s);
    if s == [] {
      CollapseNothing();
    } else if e == |s| {
      assert s[..e] == s;
      CollapseSame(s);
    } else {
      var line, rest := s[..e], s[e + 1..];
      assert Lines(s) == [line] + Lines(rest);
      assert Lines(s)[0] != [];
      forall i | 0 <= i < |Lines(rest)| ensures Lines(rest)[i] != [] {
        assert Lines(s)[i + 1] != [];
      }
      CollapseProse(rest);
      if rest != [] { FirstLine(rest); }
      CollapseLine(line, rest);
      assert s == line + [LF] + rest;
    }
  }

  lemma CollapseNothing()
    ensures Collapse([]) == []
  {
  }

  lemma {:induction false} CollapseEnds(s: Str)
    requires s != []
    ensures Collapse(s) != [] && Collapse(s)[0] == s[0]
    ensures Collapse(s)[|Collapse(s)| - 1] == s[|s| - 1]
    ensures CR !in s ==> CR !in Collapse(s)
  {
    if |s| > 1 {
      CollapseEnds(s[1..]);
    }
  }

  /** Collapsing changes the text exactly when it holds three line feeds in a row. */
  predicate HasBlankRun(s: Str) {
    exists i :: 0 <= i < |s| && StartsWithThree(s[i..])
  }

  lemma {:induction false} CollapseChanges(s: Str)
    ensures |Collapse(s)| <= |s|
    ensures Collapse(s) == s <==> !HasBlankRun(s)
  {
    if s != [] {
      CollapseChanges(s[1..]);
      if HasBlankRun(s[1..]) {
        var i :| 0 <= i < |s[1..]| && StartsWithThree(s[1..][i..]);
        assert s[1..][i..] == s[i + 1..];
      }
      if StartsWithThree(s) {
        assert s[0..] == s;
      } else {
        if HasBlankRun(s) {
          var i :| 0 <= i < |s| && StartsWithThree(s[i..]);
          assert s[0..] == s;
          assert i > 0 && s[1..][i - 1..] == s[i..];
        }
        assert Collapse(s)[1..] == Collapse(s[1..]);
        if Collapse(s[1..]) == s[1..] { assert s == [s[0]] + s[1..]; }
      }
    } else {
      assert !HasBlankRun(s);
    }
  }

  // ---------- runs of backticks ----------

  /** No `n` backticks in a row. */
  predicate NoRun(s: Str, n: nat) {
    forall i :: 0 <= i <= |s| ==> TickRun(s[i..]) < n
  }

  lemma {:induction false} FenceIsLonger(code: Str, n: nat)
    requires n > Longest(code)
    ensures NoRun(code, n)
  {
    if code != [] {
      FenceIsLonger(code[1..], n);
      forall i | 0 <= i <= |code| ensures TickRun(code[i..]) < n {
        if i == 0 { assert code[0..] == code; } else { assert code[1..][i - 1..] == code[i..]; }
      }
    }
  }

  lemma {:induction false} LongestIsThere(code: Str)
    ensures Longest(code) > 0 ==> exists i :: 0 <= i <= |code| && TickRun(code[i..]) == Longest(code)
  {
    if code != [] {
      LongestIsThere(code[1..]);
      if TickRun(code) == Longest(code) {
        assert code[0..] == code;
      } else if Longest(code) > 0 {
        var i :| 0 <= i <= |code[1..]| && TickRun(code[1..][i..]) == Longest(code[1..]);
        assert code[1..][i..] == code[i + 1..];
      }
    }
  }

  /** The fence is the shortest of three or more backticks that is longer than any run of them in the code. */
  lemma FenceIsShortest(code: Str)
    ensures var n := |CodeFence(code)|;
            && n >= 3 && (forall i :: 0 <= i < n ==> CodeFence(code)[i] == Tick) && NoRun(code, n)
            && (n > 3 ==> exists i :: 0 <= i <= |code| && TickRun(code[i..]) == n - 1)
  {
    hide NoRun;
    FenceIsLonger(code, |CodeFence(code)|);
    LongestIsThere(code);
  }

  lemma {:induction false} TickRunCollapse(s: Str)
    ensures TickRun(Collapse(s)) == TickRun(s)
  {
    if s != [] {
      TickRunCollapse(s[1..]);
      if s[0] == LF { CollapseEnds(s); }
      else { assert Collapse(s)[1..] == Collapse(s[1..]); }
    }
  }

  lemma {:induction false} NoRunCollapse(s: Str, n: nat)
    requires NoRun(s, n)
    ensures NoRun(Collapse(s), n)
  {
    if s != [] {
      NoRunSuffix(s, 1, n);
      NoRunCollapse(s[1..], n);
      if !StartsWithThree(s) {
        var c := Collapse(s);
        assert c == [s[0]] + Collapse(s[1..]);
        forall i | 0 <= i <= |c| ensures TickRun(c[i..]) < n {
          if i == 0 {
            TickRunCollapse(s);
            assert c[0..] == c && s[0..] == s;
          } else {
            assert c[i..] == Collapse(s[1..])[i - 1..];
          }
        }
      }
    } else {
      assert Collapse(s) == s;
    }
  }

  lemma NoRunSuffix(s: Str, k: nat, n: nat)
    requires k <= |s| && NoRun(s, n)
    ensures NoRun(s[k..], n)
  {
    forall i | 0 <= i <= |s[k..]| ensures TickRun(s[k..][i..]) < n {
      assert s[k..][i..] == s[k + i..];
    }
  }

  lemma {:induction false} TickRunPrefix(s: Str, k: nat)
    requires k <= |s|
    ensures TickRun(s[..k]) <= TickRun(s)
  {
    if k > 0 && s[0] == Tick {
      TickRunPrefix(s[1..], k - 1);
      assert s[..k][1..] == s[1..][..k - 1];
    }
  }

  lemma NoRunPrefix(s: Str, k: nat, n: nat)
    requires k <= |s| && NoRun(s, n)
    ensures NoRun(s[..k], n)
  {
    hide TickRun;
    forall i | 0 <= i <= k ensures TickRun(s[..k][i..]) < n {
      assert s[..k][i..] == s[i..][..k - i];
      TickRunPrefix(s[i..], k - i);
    }
  }

  lemma {:induction false} NoRunLeftStrip(s: Str, n: nat)
    requires NoRun(s, n)
    ensures NoRun(LeftStrip(s), n)
  {
    if s != [] && IsSpace(s[0]) {
      NoRunSuffix(s, 1, n);
      NoRunLeftStrip(s[1..], n);
    }
  }

  lemma {:induction false} NoRunRightStrip(s: Str, n: nat)
    requires NoRun(s, n)
    ensures NoRun(RightStrip(s), n)
  {
    if s != [] && IsSpace(s[|s| - 1]) {
      NoRunPrefix(s, |s| - 1, n);
      NoRunRightStrip(s[..|s| - 1], n);
    }
  }

  lemma {:induction false} TicksRun(n: nat)
    ensures TickRun(Ticks(n)) == n
  {
    if n > 0 {
      TicksRun(n - 1);
      assert Ticks(n)[1..] == Ticks(n - 1);
    }
  }

  /** A line without a run of n backticks does not close a fence of n. */
  lemma NotTheFence(line: Str, n: nat)
    requires NoRun(line, n)
    ensures Strip(line) != Ticks(n)
  {
    NoRunLeftStrip(line, n);
    NoRunRightStrip(LeftStrip(line), n);
    TicksRun(n);
    assert Strip(line)[0..] == Strip(line);
  }

  lemma {:induction false} NoRunInLines(s: Str, n: nat, i: nat)
    requires NoRun(s, n) && i < |Lines(s)|
    ensures NoRun(Lines(s)[i], n)
    decreases |s|
  {
    hide NoRun, LineEnd;
    var e := LineEnd(s);
    if e < |s| {
      if i == 0 {
        NoRunPrefix(s, e, n);
      } else {
        NoRunSuffix(s, e + 1, n);
        NoRunInLines(s[e + 1..], n, i - 1);
      }
    }
  }

  // ---------- lines of joined text ----------

  lemma {:induction false} JoinLines(s: Str)
    requires s == [] || s[|s| - 1] != LF
    ensures Join(Lines(s), [LF]) == s
    decreases |s|
  {
    if s != [] {
      var e := LineEnd(s);
      if e < |s| {
        JoinLines(s[e + 1..]);
        JoinCons(s[..e], Lines(s[e + 1..]), [LF]);
        assert s == s[..e] + [LF] + s[e + 1..];
      }
    }
  }

  lemma {:induction false} NormalizePlain(s: Str)
    requires CR !in s
    ensures NormalizeNewlines(s) == s
  {
    if s != [] {
      NormalizePlain(s[1..]);
    }
  }

  // ---------- reading one block back ----------

  lemma {:induction false} ProseLines(lines: seq<Str>, tail: seq<Str>, text: seq<Str>)
    requires forall i :: 0 <= i < |lines| ==> ProseLine(lines[i])
    ensures ParseBlocks(lines + tail, text) == ParseBlocks(tail, text + lines)
  {
    hide Strip, OpensFence;
    if lines == [] {
      assert lines + tail == tail && text + lines == text;
    } else {
      assert ProseLine(lines[0]);
      assert (lines + tail)[1..] == lines[1..] + tail;
      ProseLines(lines[1..], tail, text + [lines[0]]);
      assert text + [lines[0]] + lines[1..] == text + lines;
    }
  }

  lemma NothingBegun()
    ensures Paragraph([]) == []
  {
  }

  lemma ReadProse(text: Str, tail: seq<Str>)
    requires Printable(Prose(text)) && (tail == [] || tail[0] == [])
    ensures ParseBlocks(Lines(text) + tail, []) ==
            [Block(text, false, None)] + (if tail == [] then [] else ParseBlocks(tail[1..], []))
  {
    hide Lines, OpensFence, LineEnd;
    ProseLines(Lines(text), tail, []);
    assert [] + Lines(text) == Lines(text);
    assert text[|text| - 1] != LF;
    JoinLines(text);
    assert Paragraph(Lines(text)) == [Block(text, false, None)];
    BlankLineIsNone();
    if tail != [] { assert !OpensFence(Strip(tail[0])); }
  }

  lemma BlankLineIsNone()
    ensures !OpensFence(Strip([])) && Strip([]) == []
  {
  }

  lemma {:induction false} CodeRuns(lines: seq<Str>, fence: Str, tail: seq<Str>)
    requires forall i :: 0 <= i < |lines| ==> Strip(lines[i]) != fence
    requires Strip(fence) == fence
    ensures CodeLength(lines + [fence] + tail, fence) == |lines| + 1
  {
    hide Strip;
    var all := lines + [fence] + tail;
    if lines == [] {
      assert all[0] == fence;
    } else {
      assert all[1..] == lines[1..] + [fence] + tail;
      CodeRuns(lines[1..], fence, tail);
    }
  }

  lemma TicksAreNotSpace(n: nat, rest: Str)
    requires n > 0 && forall i :: 0 <= i < |rest| ==> !IsSpace(rest[i])
    ensures Strip(Ticks(n) + rest) == Ticks(n) + rest
  {
    var s := Ticks(n) + rest;
    assert !IsSpace(s[0]) && !IsSpace(s[|s| - 1]);
  }

  lemma {:induction false} TickRunOf(n: nat, rest: Str)
    requires rest == [] || rest[0] != Tick
    ensures TickRun(Ticks(n) + rest) == n
  {
    if n == 0 {
      assert Ticks(0) + rest == rest;
    } else {
      assert (Ticks(n) + rest)[1..] == Ticks(n - 1) + rest;
      TickRunOf(n - 1, rest);
    }
  }

  lemma {:induction false} AllLanguage(info: Str)
    requires LanguageRun(info) == |info|
    ensures forall i :: 0 <= i < |info| ==> IsLanguageChar(info[i])
  {
    if info != [] {
      AllLanguage(info[1..]);
      assert info == [info[0]] + info[1..];
    }
  }

  lemma OpeningLine(n: nat, info: Str)
    requires n >= 3 && LanguageRun(info) == |info|
    ensures var line := Ticks(n) + info;
            && Strip(line) == line && OpensFence(line)
            && FenceOf(line) == Ticks(n) && line[TickRun(line)..] == info
  {
    var line := Ticks(n) + info;
    AllLanguage(info);
    TicksAreNotSpace(n, info);
    TickRunOf(n, info);
    assert line[n..] == info && line[..n] == Ticks(n);
  }

  /** The lines of wrapped code: the opening fence, the code, the closing fence. */
  function WrappedLines(n: nat, language: Option<Str>, code: Str): seq<Str> {
    [Ticks(n) + Info(language)] + Lines(code) + [Ticks(n)]
  }

  lemma LinesOfWrapped(n: nat, language: Option<Str>, code: Str)
    requires Printable(Code(code, language)) && n >= 3
    ensures LF !in Ticks(n) + Info(language)
    ensures Lines(Wrapped(Ticks(n), language, code)) == WrappedLines(n, language, code)
    ensures Join(WrappedLines(n, language, code), [LF]) == Wrapped(Ticks(n), language, code)
  {
    hide Lines, Join, LanguageRun;
    NoInfo();
    NoLineFeed(n, Info(language));
    CodeLines(n, Ticks(n) + Info(language), code);
    JoinOfCode(n, Ticks(n) + Info(language), code);
  }

  /** No line of the code closes the fence. */
  lemma FenceCloses(n: nat, code: Str, tail: seq<Str>)
    requires NoRun(code, n) && n >= 3
    ensures CodeLength(Lines(code) + [Ticks(n)] + tail, Ticks(n)) == |Lines(code)| + 1
  {
    hide Lines, CodeLength, NoRun;
    forall i | 0 <= i < |Lines(code)| ensures Strip(Lines(code)[i]) != Ticks(n) {
      NoRunInLines(code, n, i);
      NotTheFence(Lines(code)[i], n);
    }
    TicksAreNotSpace(n, []);
    assert Ticks(n) + [] == Ticks(n);
    CodeRuns(Lines(code), Ticks(n), tail);
  }

  lemma ReadCode(n: nat, language: Option<Str>, code: Str, tail: seq<Str>)
    requires Printable(Code(code, language)) && n >= 3 && NoRun(code, n)
    requires tail == [] || tail[0] == []
    ensures var text := Wrapped(Ticks(n), language, code);
            ParseBlocks(Lines(text) + tail, []) ==
            [Block(text, true, language)] + (if tail == [] then [] else ParseBlocks(tail[1..], []))
  {
    hide Lines, NoRun, OpensFence, FenceOf, LanguageRun, TickRun, CodeLength, Strip, Join, Wrapped, ParseBlocks,
            Paragraph, Ticks, Printable, Info;
    PrintableInfo(code, language);
    OpeningLine(n, Info(language));
    LinesOfWrapped(n, language, code);
    FenceCloses(n, code, tail);
    LanguageReadBack(language);
    var lines := WrappedLines(n, language, code);
    var all := lines + tail;
    assert all[1..] == Lines(code) + [Ticks(n)] + tail && all[0] == Ticks(n) + Info(language);
    ParseFence(all, []);
    assert CodeTaken(all) == |lines|;
    assert all[..|lines|] == lines && all[|lines|..] == tail;
    assert CodeBlock(all, |lines|) == Block(Wrapped(Ticks(n), language, code), true, language);
    NothingBegun();
    AfterBlank(tail);
  }

  lemma AfterBlank(tail: seq<Str>)
    requires tail == [] || tail[0] == []
    ensures ParseBlocks(tail, []) == if tail == [] then [] else ParseBlocks(tail[1..], [])
  {
    NothingBegun();
    BlankLineIsNone();
  }

  lemma NoInfo()
    ensures LanguageRun([]) == 0
  {
  }

  lemma PrintableInfo(code: Str, language: Option<Str>)
    requires Printable(Code(code, language))
    ensures LanguageRun(Info(language)) == |Info(language)|
    ensures language.Some? ==> language.value != [] && Folded(language.value) == language.value
  {
  }

  lemma NoLineFeed(n: nat, info: Str)
    requires LanguageRun(info) == |info|
    ensures LF !in Ticks(n) + info
  {
    AllLanguage(info);
  }

  lemma LanguageReadBack(language: Option<Str>)
    requires language.Some? ==> language.value != [] && Folded(language.value) == language.value
    ensures LanguageOf(Info(language)) == language
  {
  }

  lemma LineOfOne(s: Str)
    requires LF !in s && s != []
    ensures Lines(s) == [s]
  {
    assert LineEnd(s) == |s|;
  }

  lemma CodeLines(n: nat, open: Str, code: Str)
    requires n >= 3 && LF !in open && open != [] && code != [] && code[|code| - 1] != LF
    ensures Lines(open + [LF] + code + [LF] + Ticks(n)) == [open] + Lines(code) + [Ticks(n)]
  {
    hide Lines;
    LineOfOne(open);
    LineOfOne(Ticks(n));
    var rest := code + [LF] + Ticks(n);
    assert open + [LF] + code + [LF] + Ticks(n) == open + [LF] + rest;
    LinesConcat(open, rest);
    LinesConcat(code, Ticks(n));
  }

  lemma JoinOfCode(n: nat, open: Str, code: Str)
    requires code != [] && code[|code| - 1] != LF
    ensures Join([open] + Lines(code) + [Ticks(n)], [LF]) == open + [LF] + code + [LF] + Ticks(n)
  {
    hide Lines, Join;
    JoinLines(code);
    LinesNonEmpty(code);
    JoinCons(open, Lines(code), [LF]);
    JoinSnoc([open] + Lines(code), [LF], Ticks(n));
  }

  lemma LinesNonEmpty(s: Str)
    requires s != []
    ensures Lines(s) != []
  {
  }

  // ---------- the round trip ----------

  lemma FenceLength(code: Str) returns (n: nat)
    ensures n >= 3 && n > Longest(code) && CodeFence(code) == Ticks(n)
  {
    n := if Longest(code) + 1 > 3 then Longest(code) + 1 else 3;
  }

  lemma CollapsedIsPrintable(b: CleanBlock)
    requires Printable(b) && b.Code?
    ensures Printable(b.(code := Collapse(b.code)))
  {
    CollapseEnds(b.code);
  }

  lemma {:induction false} CollapseWrapped(n: nat, language: Option<Str>, code: Str)
    requires Printable(Code(code, language)) && n >= 3
    ensures Collapse(Wrapped(Ticks(n), language, code)) == Wrapped(Ticks(n), language, Collapse(code))
  {
    hide Collapse, LanguageRun;
    var open, fence := Ticks(n) + Info(language), Ticks(n);
    NoInfo();
    NoLineFeed(n, Info(language));
    CollapseSame(open);
    CollapseSame(fence);
    CollapseSame([]);
    CollapseLine2(open);
    CollapseEnds(code);
    CollapseConcat(open + [LF], code + [LF] + fence);
    assert fence[0] == Tick;
    CollapseConcat(code, [LF] + fence);
    CollapseFeed(fence);
    assert Wrapped(fence, language, code) == (open + [LF]) + (code + [LF] + fence);
    assert code + [LF] + fence == code + ([LF] + fence);
    assert Wrapped(fence, language, Collapse(code)) == (open + [LF]) + (Collapse(code) + ([LF] + fence));
  }

  lemma CollapseLine2(open: Str)
    requires open != [] && LF !in open
    ensures Collapse(open + [LF]) == open + [LF]
  {
    CollapseNothing();
    CollapseLine(open, []);
    assert open + [LF] + [] == open + [LF];
  }

  lemma CollapseFeed(s: Str)
    requires s != [] && s[0] != LF
    ensures Collapse([LF] + s) == [LF] + Collapse(s)
  {
    assert ([LF] + s)[1..] == s;
  }

  /** What the printer writes never begins or ends with white space and holds no carriage return. */
  predicate Solid(s: Str) {
    s != [] && CR !in s && !IsSpace(s[0]) && !IsSpace(s[|s| - 1])
  }

  lemma PrintedBlock(b: CleanBlock)
    requires Printable(b)
    ensures Collapse(Print(b)) == ReadBack(b).text
    ensures Solid(Print(b)) && Solid(ReadBack(b).text)
  {
    hide Collapse, LanguageRun, Lines, OpensFence;
    match b {
      case Prose(text) =>
        CollapseProse(text);
      case Code(code, language) =>
        var n := FenceLength(code);
        CollapseWrapped(n, language, code);
        CollapseEnds(code);
        NoInfo();
        NoReturn(n, Info(language));
        WrappedIsSolid(n, language, code);
        WrappedIsSolid(n, language, Collapse(code));
    }
  }

  lemma NoReturn(n: nat, info: Str)
    requires LanguageRun(info) == |info|
    ensures CR !in Ticks(n) + info
  {
    AllLanguage(info);
  }

  lemma WrappedIsSolid(n: nat, language: Option<Str>, code: Str)
    requires n >= 3 && CR !in code && CR !in Ticks(n) + Info(language)
    ensures Solid(Wrapped(Ticks(n), language, code))
  {
    var s := Wrapped(Ticks(n), language, code);
    assert s == (Ticks(n) + Info(language)) + ([LF] + code + [LF] + Ticks(n));
    assert s[0] == Tick && s[|s| - 1] == Tick;
  }

  lemma {:induction false} CollapseJoin(bs: seq<CleanBlock>)
    requires forall i :: 0 <= i < |bs| ==> Printable(bs[i])
    ensures Collapse(Join(PrintAll(bs), [LF, LF])) == Join(Texts(ReadBackAll(bs)), [LF, LF])
    ensures bs != [] ==> Solid(Join(PrintAll(bs), [LF, LF])) && Solid(Join(Texts(ReadBackAll(bs)), [LF, LF]))
  {
    hide Collapse, Printable, Print, ReadBack;
    if bs == [] {
      CollapseNothing();
    } else if |bs| == 1 {
      PrintedBlock(bs[0]);
      assert PrintAll(bs) == [Print(bs[0])] && Texts(ReadBackAll(bs)) == [ReadBack(bs[0]).text];
    } else {
      var n := |bs| - 1;
      var front, last := bs[..n], bs[n];
      CollapseJoin(front);
      PrintedBlock(last);
      assert PrintAll(bs)[..n] == PrintAll(front);
      assert Texts(ReadBackAll(bs))[..n] == Texts(ReadBackAll(front));
      JoinTwo(Join(PrintAll(front), [LF, LF]), Print(last));
    }
  }

  lemma JoinTwo(a: Str, b: Str)
    requires Solid(a) && Solid(b)
    ensures Collapse(a + [LF, LF] + b) == Collapse(a) + [LF, LF] + Collapse(b)
    ensures Solid(a + [LF, LF] + b)
    ensures Solid(Collapse(a)) && Solid(Collapse(b)) ==> Solid(Collapse(a) + [LF, LF] + Collapse(b))
  {
    hide Collapse;
    CollapseConcat(a, [LF, LF] + b);
    TwoFeeds(b);
    assert a + [LF, LF] + b == a + ([LF, LF] + b);
  }

  lemma TwoFeeds(b: Str)
    requires b != [] && b[0] != LF
    ensures Collapse([LF, LF] + b) == [LF, LF] + Collapse(b)
  {
    hide Collapse;
    CollapseFeed(b);
    CollapseFeedAgain([LF] + b);
    assert [LF] + ([LF] + b) == [LF, LF] + b;
    assert [LF] + ([LF] + Collapse(b)) == [LF, LF] + Collapse(b);
  }

  lemma CollapseFeedAgain(s: Str)
    requires |s| > 1 && s[1] != LF
    ensures Collapse([LF] + s) == [LF] + Collapse(s)
  {
    assert ([LF] + s)[1..] == s;
    assert ([LF] + s)[2] != LF;
  }

  lemma StripSolid(s: Str)
    requires Solid(s)
    ensures Strip(s) == s
  {
  }

  lemma ReadBlock(b: CleanBlock, tail: seq<Str>)
    requires Printable(b) && (tail == [] || tail[0] == [])
    ensures ParseBlocks(Lines(ReadBack(b).text) + tail, []) ==
            [ReadBack(b)] + (if tail == [] then [] else ParseBlocks(tail[1..], []))
  {
    hide ParseBlocks, Lines, Collapse, NoRun, Longest;
    match b {
      case Prose(text) =>
        ReadProse(text, tail);
      case Code(code, language) =>
        var n := FenceLength(code);
        FenceIsLonger(code, n);
        NoRunCollapse(code, n);
        CollapsedIsPrintable(b);
        ReadCode(n, language, Collapse(code), tail);
    }
  }

  lemma {:induction false} ReadJoined(bs: seq<CleanBlock>)
    requires forall i :: 0 <= i < |bs| ==> Printable(bs[i])
    ensures ParseBlocks(Lines(Join(Texts(ReadBackAll(bs)), [LF, LF])), []) == ReadBackAll(bs)
  {
    hide ParseBlocks, Lines, Printable, ReadBack, Solid, Join;
    var texts := Texts(ReadBackAll(bs));
    if bs == [] {
      NothingBegun();
      EmptyText();
      JoinedTexts(texts);
    } else {
      var first, rest := bs[0], bs[1..];
      PrintedBlock(first);
      if rest == [] {
        ReadBlock(first, []);
        assert texts == [ReadBack(first).text];
        JoinedTexts(texts);
        assert Lines(texts[0]) + [] == Lines(texts[0]);
        assert ReadBackAll(bs) == [ReadBack(first)] + [];
      } else {
        ReadJoined(rest);
        var restTexts := Texts(ReadBackAll(rest));
        var joined := Join(restTexts, [LF, LF]);
        assert texts == [ReadBack(first).text] + restTexts;
        JoinCons(ReadBack(first).text, restTexts, [LF, LF]);
        LinesAcrossBlank(ReadBack(first).text, joined);
        var tail := [[]] + Lines(joined);
        ReadBlock(first, tail);
        assert tail[1..] == Lines(joined);
        assert ReadBackAll(bs) == [ReadBack(first)] + ReadBackAll(rest);
      }
    }
  }

  lemma JoinedTexts(texts: seq<Str>)
    ensures texts == [] ==> Join(texts, [LF, LF]) == []
    ensures |texts| == 1 ==> Join(texts, [LF, LF]) == texts[0]
  {
  }

  lemma EmptyText()
    ensures ParseBlocks(Lines([]), []) == []
  {
    NothingBegun();
  }

  lemma LinesAcrossBlank(a: Str, b: Str)
    requires Solid(a)
    ensures Lines(a + [LF, LF] + b) == Lines(a) + ([[]] + Lines(b))
  {
    LinesConcat(a, [LF] + b);
    assert a + [LF, LF] + b == a + [LF] + ([LF] + b);
    assert ([LF] + b)[1..] == b && ([LF] + b)[..0] == [];
  }

  /** Reading the cleaned text back gives the printed blocks, one for one: no line of any code closes
      its fence early, and only runs of blank lines inside code have been shortened. */
  lemma ReadsBack(bs: seq<CleanBlock>)
    requires forall i :: 0 <= i < |bs| ==> Printable(bs[i])
    ensures ParseBlocks(Lines(NormalizeNewlines(CleanText(bs))), []) == ReadBackAll(bs)
  {
    hide ParseBlocks, Lines, Printable, ReadBack, Collapse, Strip, Join;
    CollapseJoin(bs);
    ReadJoined(bs);
    var text := Join(Texts(ReadBackAll(bs)), [LF, LF]);
    if bs == [] {
      JoinedNothing();
    } else {
      StripSolid(text);
    }
    NormalizePlain(text);
  }

  lemma JoinedNothing()
    ensures Join([], [LF, LF]) == [] && Strip([]) == []
  {
  }

  /** The block as it was printed. */
  function Printed(b: CleanBlock): Block {
    match b
    case Code(code, language) => Block(Print(b), true, language)
    case Prose(text) => Block(text, false, None)
  }

  function PrintedAll(bs: seq<CleanBlock>): (r: seq<Block>)
    ensures |r| == |bs| && forall i :: 0 <= i < |r| ==> r[i] == Printed(bs[i])
  {
    seq(|bs|, i requires 0 <= i < |bs| => Printed(bs[i]))
  }

  lemma SameBlock(b: CleanBlock)
    ensures ReadBack(b) == Printed(b) <==> (b.Code? ==> !HasBlankRun(b.code))
  {
    hide Collapse, CodeFence, Info;
    if b.Code? {
      CollapseChanges(b.code);
      var head := CodeFence(b.code) + Info(b.language) + [LF];
      var printed, read := Print(b), ReadBack(b).text;
      assert printed[|head|..|head| + |b.code|] == b.code;
      assert read[|head|..|head| + |Collapse(b.code)|] == Collapse(b.code);
      if printed == read {
        assert |Collapse(b.code)| == |b.code|;
      }
    }
  }

  /** With text of plain paragraphs, the same list comes back exactly when no code holds three line feeds in a row. */
  lemma RoundTripOfPrintable(bs: seq<CleanBlock>)
    requires forall i :: 0 <= i < |bs| ==> Printable(bs[i])
    ensures ParseBlocks(Lines(NormalizeNewlines(CleanText(bs))), []) == PrintedAll(bs)
            <==> (forall i :: 0 <= i < |bs| && bs[i].Code? ==> !HasBlankRun(bs[i].code))
  {
    hide ParseBlocks, Lines, NormalizeNewlines, CleanText, Printable, ReadBack, Printed, HasBlankRun;
    ReadsBack(bs);
    forall i | 0 <= i < |bs|
      ensures ReadBackAll(bs)[i] == PrintedAll(bs)[i] <==> (bs[i].Code? ==> !HasBlankRun(bs[i].code))
    {
      SameBlock(bs[i]);
    }
    if forall i :: 0 <= i < |bs| && bs[i].Code? ==> !HasBlankRun(bs[i].code) {
      assert ReadBackAll(bs) == PrintedAll(bs);
    }
  }

  // ---------- what a paragraph can be ----------

  lemma {:induction false} RightStripConcat(a: Str, b: Str)
    ensures RightStrip(a + b) == if RightStrip(b) != [] then a + RightStrip(b) else RightStrip(a)
  {
    if b == [] {
      assert a + b == a;
    } else {
      var n := |b| - 1;
      assert (a + b)[..|a| + n] == a + b[..n];
      if IsSpace(b[n]) {
        RightStripConcat(a, b[..n]);
      }
    }
  }

  lemma RightStripAgain(s: Str)
    ensures RightStrip(RightStrip(s)) == RightStrip(s)
  {
  }

  /** The ends can be stripped in either order. */
  lemma {:induction false} StripsCommute(s: Str)
    ensures LeftStrip(RightStrip(s)) == RightStrip(LeftStrip(s))
  {
    if s != [] {
      var head, rest := [s[0]], s[1..];
      assert s == head + rest;
      RightStripConcat(head, rest);
      assert RightStrip(head) == if IsSpace(s[0]) then [] else head by { assert head[..0] == []; }
      if IsSpace(s[0]) {
        StripsCommute(rest);
        assert RightStrip(rest) != [] ==> (head + RightStrip(rest))[1..] == RightStrip(rest);
      }
    }
  }

  lemma StrippedIsStripped(s: Str)
    ensures Strip(RightStrip(s)) == Strip(s)
  {
    hide LeftStrip, RightStrip;
    StripsCommute(s);
    RightStripAgain(LeftStrip(s));
  }

  lemma LinesCons(s: Str)
    requires s != [] && s[0] != LF
    ensures Lines(s) != [] && Lines(s)[0] != [] && Lines(s)[0][0] == s[0]
    ensures |s| == 1 || s[1] == LF ==> Lines(s)[0] == [s[0]]
  {
    hide Lines, LineEnd;
    LinesStep(s);
    FirstFeed(s);
    if |s| == 1 { NoFeed(); } else { FirstFeed(s[1..]); }
  }

  /** Without its first character, text that does not begin with a line of one has the same lines but the first. */
  lemma LinesOfTail(s: Str)
    requires |s| > 1 && s[0] != LF && s[1] != LF
    ensures Lines(s) != [] && Lines(s)[0] != []
    ensures Lines(s[1..]) == [Lines(s)[0][1..]] + Lines(s)[1..]
  {
    hide Lines, LineEnd;
    var e, rest := LineEnd(s), s[1..];
    LinesStep(s);
    LinesStep(rest);
    FirstFeed(s);
    if e < |s| {
      assert rest[..e - 1] == s[..e][1..] && rest[e..] == s[e + 1..];
    }
  }

  lemma NoFeed()
    ensures LineEnd([]) == 0
  {
  }

  lemma FirstFeed(s: Str)
    requires s != []
    ensures LineEnd(s) == if s[0] == LF then 0 else 1 + LineEnd(s[1..])
  {
  }

  lemma {:induction false} LeftStripKeepsProse(s: Str)
    requires ProseOnly(Lines(s))
    ensures ProseOnly(Lines(LeftStrip(s)))
  {
    hide Lines, OpensFence, RightStrip;
    if s != [] && IsSpace(s[0]) {
      LinesNonEmpty(s);
      FirstLine(s);
      var line := Lines(s)[0];
      assert ProseLine(line) && line != [] by { BlankIsNotProse([]); }
      LinesCons(s);
      assert LeftStrip(line) == LeftStrip(line[1..]);
      assert line != [s[0]] by { BlankIsNotProse([s[0]]); }
      LinesOfTail(s);
      assert ProseLine(line[1..]);
      assert ProseOnly(Lines(s[1..]));
      LeftStripKeepsProse(s[1..]);
    }
  }

  lemma BlankIsNotProse(line: Str)
    requires line == [] || (|line| == 1 && IsSpace(line[0]))
    ensures !ProseLine(line)
  {
    assert LeftStrip(line) == [];
  }

  lemma {:induction false} RightStripIsPrefix(s: Str)
    ensures RightStrip(s) <= s
  {
    if s != [] && IsSpace(s[|s| - 1]) {
      RightStripIsPrefix(s[..|s| - 1]);
    }
  }

  /** Text whose first line is not blank is not blank. */
  lemma NotBlank(line: Str, more: Str)
    requires ProseLine(line)
    ensures RightStrip(line + more) != []
  {
    hide LeftStrip, RightStrip, OpensFence;
    StripsCommute(line);
    RightStripConcat(line, more);
    if RightStrip(line) == [] { assert LeftStrip([]) == [] by { StripNothing(); } }
    assert |line + RightStrip(more)| >= |RightStrip(more)|;
  }

  lemma StripNothing()
    ensures LeftStrip([]) == [] && RightStrip([]) == []
  {
  }

  lemma {:induction false} RightStripKeepsProse(s: Str)
    requires ProseOnly(Lines(s))
    ensures ProseOnly(Lines(RightStrip(s)))
    decreases |s|
  {
    hide Lines, OpensFence, LeftStrip, RightStrip, LineEnd, Strip;
    if s == [] {
      StripNothing();
    } else {
      LinesStep(s);
      var e := LineEnd(s);
      var line, rest := s[..e], if e < |s| then s[e + 1..] else [];
      assert ProseLine(Lines(s)[0]);
      if e == |s| {
        LastLine(s);
      } else {
        assert s == (line + [LF]) + rest;
        RightStripConcat(line + [LF], rest);
        assert Lines(rest) == Lines(s)[1..];
        if rest == [] {
          StripNothing();
          RightStripConcat(line, [LF]);
          OneFeed();
          LastLine(line);
        } else {
          RestIsNotBlank(rest);
          RightStripKeepsProse(rest);
          assert line != [] by { BlankIsNotProse([]); }
          LinesConcat(line, RightStrip(rest));
          LineOfOne(line);
        }
      }
    }
  }

  lemma OneFeed()
    ensures RightStrip([LF]) == []
  {
    assert [LF][..0] == [];
  }

  lemma RestIsNotBlank(s: Str)
    requires s != [] && ProseOnly(Lines(s))
    ensures RightStrip(s) != []
  {
    hide Lines, OpensFence, LeftStrip, RightStrip, LineEnd, Strip;
    LinesStep(s);
    assert ProseLine(Lines(s)[0]);
    assert s == s[..LineEnd(s)] + s[LineEnd(s)..];
    assert Lines(s)[0] == s[..LineEnd(s)];
    NotBlank(Lines(s)[0], s[LineEnd(s)..]);
  }

  lemma LastLine(line: Str)
    requires LF !in line && ProseLine(line)
    ensures Lines(RightStrip(line)) == [RightStrip(line)] && ProseLine(RightStrip(line))
  {
    hide Lines, OpensFence, LeftStrip, RightStrip, Strip;
    StrippedIsStripped(line);
    RightStripIsPrefix(line);
    assert RightStrip(line) != [] by { BlankIsNotProse([]); }
    LineOfOne(RightStrip(line));
  }

  lemma {:induction false} JoinedLines(lines: seq<Str>)
    requires ProseOnly(lines) && forall i :: 0 <= i < |lines| ==> LF !in lines[i]
    ensures Lines(Join(lines, [LF])) == lines
  {
    hide OpensFence;
    if lines == [] {
    } else if |lines| == 1 {
      assert ProseLine(lines[0]);
      LineOfOne(lines[0]);
    } else {
      assert ProseLine(lines[0]);
      JoinedLines(lines[1..]);
      JoinCons(lines[0], lines[1..], [LF]);
      assert [lines[0]] + lines[1..] == lines;
      LinesConcat(lines[0], Join(lines[1..], [LF]));
      LineOfOne(lines[0]);
    }
  }

  /** A paragraph read from lines that continue it has such lines only. */
  lemma ParagraphIsProse(lines: seq<Str>)
    requires ProseOnly(lines) && forall i :: 0 <= i < |lines| ==> LF !in lines[i]
    ensures forall b :: b in Paragraph(lines) ==> ProseOnly(Lines(b.text))
  {
    hide Lines, OpensFence, LeftStrip, RightStrip, Join, ProseOnly;
    var joined := Join(lines, [LF]);
    JoinedLines(lines);
    LeftStripKeepsProse(joined);
    RightStripKeepsProse(LeftStrip(joined));
  }

  /** Whatever the lines are, a block read as text has no blank line and no line that opens a fence. */
  lemma {:induction false} TextBlocksAreProse(lines: seq<Str>, text: seq<Str>)
    requires ProseOnly(text)
    requires forall i :: 0 <= i < |lines| ==> LF !in lines[i]
    requires forall i :: 0 <= i < |text| ==> LF !in text[i]
    ensures forall b :: b in ParseBlocks(lines, text) && !b.hasCode ==> ProseOnly(Lines(b.text))
    decreases |lines|
  {
    hide Lines, OpensFence, Strip, Paragraph, CodeTaken;
    ParagraphIsProse(text);
    if lines == [] {
    } else if OpensFence(Strip(lines[0])) {
      var n := CodeTaken(lines);
      TextBlocksAreProse(lines[n..], []);
    } else if Strip(lines[0]) == [] {
      TextBlocksAreProse(lines[1..], []);
    } else {
      TextBlocksAreProse(lines[1..], text + [lines[0]]);
    }
  }

  /** Whether the block comes back as it was printed. */
  predicate ComesBack(b: CleanBlock) {
    match b
    case Code(code, _) => !HasBlankRun(code)
    case Prose(text) => ProseOnly(Lines(text))
  }

  /** Printing and parsing return the same list exactly when no code holds three line feeds in a row, and no text
      a blank line or a line that opens a fence. */
  lemma RoundTrip(bs: seq<CleanBlock>)
    requires forall i :: 0 <= i < |bs| ==> Clean(bs[i])
    ensures ParseBlocks(Lines(NormalizeNewlines(CleanText(bs))), []) == PrintedAll(bs)
            <==> (forall i :: 0 <= i < |bs| ==> ComesBack(bs[i]))
  {
    hide ParseBlocks, NormalizeNewlines, CleanText, Clean, HasBlankRun, ProseOnly, Lines;
    if forall i :: 0 <= i < |bs| ==> Printable(bs[i]) {
      RoundTripOfPrintable(bs);
    } else {
      var i :| 0 <= i < |bs| && !Printable(bs[i]);
      var lines := Lines(NormalizeNewlines(CleanText(bs)));
      assert ProseOnly([]) by { NoLines(); }
      TextBlocksAreProse(lines, []);
      assert PrintedAll(bs)[i] == Printed(bs[i]);
      assert Printed(bs[i]) !in ParseBlocks(lines, []);
    }
  }

  lemma NoLines()
    ensures ProseOnly([])
  {
  }

  /** Two words with two empty lines between them come back with one. */
  lemma RoundTripExample()
    ensures var code := [Word(120), LF, LF, LF, Word(121)];
            var bs := [Code(code, None)];
            && Printable(bs[0])
            && ParseBlocks(Lines(NormalizeNewlines(CleanText(bs))), []) != PrintedAll(bs)
  {
    hide ParseBlocks, Lines, NormalizeNewlines, CleanText, PrintedAll;
    var code := [Word(120), LF, LF, LF, Word(121)];
    var bs := [Code(code, None)];
    assert StartsWithThree(code[1..]);
    assert HasBlankRun(code);
    RoundTrip(bs);
    assert bs[0].Code? && HasBlankRun(bs[0].code);
  }

  /** A text of two paragraphs comes back as two blocks. */
  lemma TwoParagraphsExample()
    ensures var bs := [Prose([Word(120), LF, LF, Word(121)])];
            && Clean(bs[0])
            && ParseBlocks(Lines(NormalizeNewlines(CleanText(bs))), []) != PrintedAll(bs)
  {
    hide ParseBlocks, NormalizeNewlines, CleanText, PrintedAll, Clean, ComesBack, Lines;
    var bs := [Prose([Word(120), LF, LF, Word(121)])];
    TwoParagraphs([Word(120)], [Word(121)]);
    assert bs[0].text == [Word(120)] + [LF, LF] + [Word(121)];
    RoundTrip(bs);
    assert !ComesBack(bs[0]);
  }

  /** A blank line between two printed texts is not part of one paragraph. */
  lemma TwoParagraphs(a: Str, b: Str)
    requires Solid(a) && Solid(b) && LF !in a
    ensures var text := a + [LF, LF] + b; Clean(Prose(text)) && !ComesBack(Prose(text))
  {
    hide Lines, Strip, OpensFence;
    var text := a + [LF, LF] + b;
    LinesAcrossBlank(a, b);
    LineOfOne(a);
    assert Lines(text)[1] == [];
    BlankIsNotProse([]);
    assert Solid(text);
    StripSolid(text);
  }
}
