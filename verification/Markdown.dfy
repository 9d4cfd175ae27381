/** Section text cut into atomic blocks: paragraphs, and fenced code kept whole. */
module Markdown {
  import opened Common
  import opened Text
  import opened TokenCounter

  /** `language` is the folded info string of a fence; None for text and for a bare fence. */
  datatype Block = Block(text: Str, hasCode: bool, language: Option<Str>)

  // ---------- fence lines ----------

  /** [a-zA-Z0-9_+#.-] */
  predicate IsLanguageChar(c: Ch) {
    (c.Word? && c.code < 128) || (c.Mark? && c.code in {43, 35, 46, 45})
  }

  function Folded(language: Str): Str {
    seq(|language|, i requires 0 <= i < |language| =>
      if language[i].Word? && 65 <= language[i].code <= 90 then Word(language[i].code + 32) else language[i])
  }

  function TickRun(s: Str): (n: nat)
    ensures n <= |s|
  {
    if s != [] && s[0] == Tick then 1 + TickRun(s[1..]) else 0
  }

  function LanguageRun(s: Str): (n: nat)
    ensures n <= |s|
  {
    if s != [] && IsLanguageChar(s[0]) then 1 + LanguageRun(s[1..]) else 0
  }

  /** The stripped line opens a fence: three or more backticks and an info string, nothing else. */
  predicate OpensFence(line: Str) {
    var n := TickRun(line);
    n >= 3 && LanguageRun(line[n..]) == |line| - n
  }

  /** n backticks, at least three, and then letters, digits, underscores of ASCII, or one of # + - . */
  predicate IsFenceLine(line: Str, n: int) {
    && 3 <= n <= |line| && (forall i :: 0 <= i < n ==> line[i] == Tick)
    && forall i :: n <= i < |line| ==>
         || (line[i].Word? && line[i].code <= 127)
         || line[i] == Mark(35) || line[i] == Mark(43) || line[i] == Mark(45) || line[i] == Mark(46)
  }

  lemma {:induction false} RunsAre(s: Str)
    ensures forall i :: 0 <= i < TickRun(s) ==> s[i] == Tick
    ensures forall i :: 0 <= i < LanguageRun(s) ==> IsLanguageChar(s[i])
  {
    if s != [] {
      RunsAre(s[1..]);
      assert forall i :: 1 <= i < |s| ==> s[i] == s[1..][i - 1];
    }
  }

  lemma {:induction false} TickRunExact(s: Str, n: nat)
    requires n <= |s| && (forall i :: 0 <= i < n ==> s[i] == Tick) && (n < |s| ==> s[n] != Tick)
    ensures TickRun(s) == n
  {
    if n > 0 {
      assert forall i :: 0 <= i < n - 1 ==> s[1..][i] == s[i + 1];
      TickRunExact(s[1..], n - 1);
    }
  }

  lemma {:induction false} LanguageRunExact(s: Str, n: nat)
    requires n <= |s| && (forall i :: 0 <= i < n ==> IsLanguageChar(s[i])) && (n < |s| ==> !IsLanguageChar(s[n]))
    ensures LanguageRun(s) == n
  {
    if n > 0 {
      assert forall i :: 0 <= i < n - 1 ==> s[1..][i] == s[i + 1];
      LanguageRunExact(s[1..], n - 1);
    }
  }

  lemma OpensFenceIff(line: Str)
    ensures OpensFence(line) <==> exists n :: IsFenceLine(line, n)
  {
    var n := TickRun(line);
    RunsAre(line);
    RunsAre(line[n..]);
    if OpensFence(line) {
      assert forall i :: n <= i < |line| ==> line[i] == line[n..][i - n];
      assert IsFenceLine(line, n);
    }
    if k :| IsFenceLine(line, k) {
      TickRunExact(line, k);
      LanguageRunExact(line[k..], |line| - k);
    }
  }

  /** The info string is the language with its capital letters made small, or none when it is empty. */
  lemma LanguageIs(info: Str)
    ensures LanguageOf(info) == None <==> info == []
    ensures info != [] ==>
              && |LanguageOf(info).value| == |info|
              && forall i :: 0 <= i < |info| ==>
                   LanguageOf(info).value[i] ==
                   if info[i].Word? && 65 <= info[i].code <= 90 then Word(info[i].code + 32) else info[i]
  {
  }

  function LanguageOf(info: Str): Option<Str> {
    if info == [] then None else Some(Folded(info))
  }

  // ---------- the block structure of a list of lines ----------

  /** Lines taken by a code block after its opening line: up to the closing line, or all of them. */
  function CodeLength(lines: seq<Str>, fence: Str): (n: nat)
    ensures n <= |lines|
  {
    if lines == [] then 0
    else if Strip(lines[0]) == fence then 1
    else 1 + CodeLength(lines[1..], fence)
  }

  /** The paragraph that a blank line, a fence or the end of the text closes. */
  function Paragraph(lines: seq<Str>): seq<Block> {
    var text := Strip(Join(lines, [LF]));
    if text == [] then [] else [Block(text, false, None)]
  }

  function FenceOf(line: Str): Str {
    Strip(line)[..TickRun(Strip(line))]
  }

  /** The lines of the code block that `lines` begin with. */
  function CodeTaken(lines: seq<Str>): (n: nat)
    requires lines != []
    ensures 1 <= n <= |lines|
  {
    1 + CodeLength(lines[1..], FenceOf(lines[0]))
  }

  /** What follows the backticks of an opening line. */
  function InfoOf(line: Str): Str {
    Strip(line)[TickRun(Strip(line))..]
  }

  /** The blocks of `lines`, when `text` are the lines of a paragraph already begun. */
  function ParseBlocks(lines: seq<Str>, text: seq<Str>): seq<Block>
    decreases |lines|
  {
    if lines == [] then Paragraph(text)
    else if OpensFence(Strip(lines[0])) then
      Paragraph(text) + [CodeBlock(lines, CodeTaken(lines))] + ParseBlocks(lines[CodeTaken(lines)..], [])
    else if Strip(lines[0]) == [] then Paragraph(text) + ParseBlocks(lines[1..], [])
    else ParseBlocks(lines[1..], text + [lines[0]])
  }

  function CodeBlock(lines: seq<Str>, n: nat): Block
    requires 0 < n <= |lines|
  {
    Block(Join(lines[..n], [LF]), true, LanguageOf(InfoOf(lines[0])))
  }

  /** The inner loop of _markdown_blocks: the code block that opens at `start`, and the line after it. */
  method ReadCodeLines(lines: seq<Str>, start: nat, fence: Str) returns (codeLines: seq<Str>, index: nat)
    requires start < |lines|
    ensures index == start + 1 + CodeLength(lines[start + 1..], fence)
    ensures codeLines == lines[start..index]
  {
    hide Strip, Join;
    codeLines := [lines[start]];
    index := start + 1;
    while index < |lines|
      invariant start < index <= |lines|
      invariant codeLines == lines[start..index]
      invariant CodeLength(lines[start + 1..], fence) == index - start - 1 + CodeLength(lines[index..], fence)
    {
      codeLines := codeLines + [lines[index]];
      assert lines[index..][1..] == lines[index + 1..];
      if Strip(lines[index]) == fence {
        index := index + 1;
        return;
      }
      index := index + 1;
    }
  }

  /** _markdown_blocks */
  method MarkdownBlocks(value: Str) returns (blocks: seq<Block>)
    ensures blocks == ParseBlocks(Lines(NormalizeNewlines(value)), [])
  {
    hide *;
    var lines := Lines(NormalizeNewlines(value));
    blocks := [];
    var textLines: seq<Str> := [];
    var index: nat := 0;
    assert lines[0..] == lines;
    while index < |lines|
      invariant index <= |lines|
      invariant blocks + ParseBlocks(lines[index..], textLines) == ParseBlocks(lines, [])
    {
      var line := lines[index];
      if OpensFence(Strip(line)) {
        var language := LanguageOf(InfoOf(line));
        var codeLines, next := ReadCodeLines(lines, index, FenceOf(line));
        ParseFenceAt(lines, index, textLines, next);
        assert next <= |lines|;
        blocks := blocks + Paragraph(textLines) + [Block(Join(codeLines, [LF]), true, language)];
        textLines := [];
        index := next;
      } else {
        ParseLineAt(lines, index, textLines);
        if Strip(line) == [] {
          blocks := blocks + Paragraph(textLines);
          textLines := [];
        } else {
          textLines := textLines + [line];
        }
        index := index + 1;
      }
    }
    assert lines[index..] == [];
    ParseNone(textLines);
    blocks := blocks + Paragraph(textLines);
  }

  lemma ParseNone(text: seq<Str>)
    ensures ParseBlocks([], text) == Paragraph(text)
  {
  }

  lemma ParseFence(lines: seq<Str>, text: seq<Str>)
    requires lines != [] && OpensFence(Strip(lines[0]))
    ensures ParseBlocks(lines, text) ==
            Paragraph(text) + [CodeBlock(lines, CodeTaken(lines))] + ParseBlocks(lines[CodeTaken(lines)..], [])
  {
    hide Strip, OpensFence, CodeTaken, CodeBlock, Paragraph;
  }

  lemma ParseLine(lines: seq<Str>, text: seq<Str>)
    requires lines != [] && !OpensFence(Strip(lines[0]))
    ensures ParseBlocks(lines, text) ==
            if Strip(lines[0]) == [] then Paragraph(text) + ParseBlocks(lines[1..], [])
            else ParseBlocks(lines[1..], text + [lines[0]])
  {
    hide Strip, OpensFence, CodeTaken, CodeBlock, Paragraph;
  }

  lemma ParseFenceAt(lines: seq<Str>, index: nat, text: seq<Str>, next: nat)
    requires index < |lines| && OpensFence(Strip(lines[index]))
    requires next == index + 1 + CodeLength(lines[index + 1..], FenceOf(lines[index])) <= |lines|
    ensures ParseBlocks(lines[index..], text) ==
            Paragraph(text) + [Block(Join(lines[index..next], [LF]), true, LanguageOf(InfoOf(lines[index])))]
            + ParseBlocks(lines[next..], [])
  {
    hide Join, Strip, InfoOf, OpensFence, CodeLength, Paragraph, ParseBlocks, FenceOf, LanguageOf;
    var rest := lines[index..];
    assert rest[1..] == lines[index + 1..] && rest[0] == lines[index];
    ParseFence(rest, text);
    assert CodeTaken(rest) == next - index;
    assert rest[..next - index] == lines[index..next] && rest[next - index..] == lines[next..];
  }

  lemma ParseLineAt(lines: seq<Str>, index: nat, text: seq<Str>)
    requires index < |lines| && !OpensFence(Strip(lines[index]))
    ensures ParseBlocks(lines[index..], text) ==
            if Strip(lines[index]) == [] then Paragraph(text) + ParseBlocks(lines[index + 1..], [])
            else ParseBlocks(lines[index + 1..], text + [lines[index]])
  {
    hide Strip, OpensFence, Paragraph, ParseBlocks;
    var rest := lines[index..];
    assert rest[1..] == lines[index + 1..] && rest[0] == lines[index];
    ParseLine(rest, text);
  }

  // ---------- no token is lost ----------

  function Texts(blocks: seq<Block>): (r: seq<Str>)
    ensures |r| == |blocks|
    ensures forall i :: 0 <= i < |r| ==> r[i] == blocks[i].text
  {
    seq(|blocks|, i requires 0 <= i < |blocks| => blocks[i].text)
  }

  /** The tokens of the blocks, one block after the other. */
  function Content(blocks: seq<Block>): seq<Str> {
    AllTokens(Texts(blocks))
  }

  lemma ContentConcat(a: seq<Block>, b: seq<Block>)
    ensures Content(a + b) == Content(a) + Content(b)
  {
    hide Tokens;
    assert Texts(a + b) == Texts(a) + Texts(b);
    AllTokensConcat(Texts(a), Texts(b));
  }

  lemma ContentOne(block: Block)
    ensures Content([block]) == Tokens(block.text)
  {
    hide Tokens;
    assert Texts([block]) == [block.text];
    AllTokensSnoc([], block.text);
    assert [] + [block.text] == [block.text];
  }

  lemma ParagraphTokens(lines: seq<Str>)
    ensures Content(Paragraph(lines)) == AllTokens(lines)
    ensures forall i :: 0 <= i < |Paragraph(lines)| ==> Tokens(Paragraph(lines)[i].text) != []
  {
    hide Tokens;
    var joined := Join(lines, [LF]);
    TokensJoin(lines, [LF]);
    TokensStrip(joined);
    HasToken(joined);
    if Strip(joined) != [] {
      ContentOne(Block(Strip(joined), false, None));
    }
  }

  lemma CodeBlockTokens(lines: seq<Str>, n: nat)
    requires 0 < n <= |lines| && OpensFence(Strip(lines[0]))
    ensures Tokens(CodeBlock(lines, n).text) == AllTokens(lines[..n])
    ensures Tokens(CodeBlock(lines, n).text) != []
  {
    hide Tokens;
    TokensJoin(lines[..n], [LF]);
    HasToken(lines[0]);
    AllTokensCons(lines[0], lines[1..n]);
    assert lines[..n] == [lines[0]] + lines[1..n];
  }

  lemma ContentOfThree(text: seq<Str>, code: Block, rest: seq<Block>)
    ensures Content(Paragraph(text) + [code] + rest) == AllTokens(text) + Tokens(code.text) + Content(rest)
  {
    hide *;
    ParagraphTokens(text);
    ContentOne(code);
    ContentConcat(Paragraph(text), [code]);
    ContentConcat(Paragraph(text) + [code], rest);
  }

  lemma ContentOfTwo(text: seq<Str>, rest: seq<Block>)
    ensures Content(Paragraph(text) + rest) == AllTokens(text) + Content(rest)
  {
    hide *;
    ParagraphTokens(text);
    ContentConcat(Paragraph(text), rest);
  }

  lemma AllTokensSplit(lines: seq<Str>, n: nat)
    requires n <= |lines|
    ensures AllTokens(lines) == AllTokens(lines[..n]) + AllTokens(lines[n..])
  {
    hide *;
    AllTokensConcat(lines[..n], lines[n..]);
    assert lines[..n] + lines[n..] == lines;
  }

  /** The blocks hold every token of the lines, in order. */
  lemma {:induction false} ParseKeepsTokens(lines: seq<Str>, text: seq<Str>)
    ensures Content(ParseBlocks(lines, text)) == AllTokens(text) + AllTokens(lines)
    decreases |lines|
  {
    hide Tokens, AllTokens, Join, Strip, OpensFence, CodeTaken, CodeBlock, Paragraph, Content;
    if lines == [] {
      ContentOfTwo(text, []);
      assert Paragraph(text) + [] == Paragraph(text);
      NothingToKeep();
    } else if OpensFence(Strip(lines[0])) {
      var n := CodeTaken(lines);
      CodeBlockTokens(lines, n);
      ParseKeepsTokens(lines[n..], []);
      NothingToKeep();
      ContentOfThree(text, CodeBlock(lines, n), ParseBlocks(lines[n..], []));
      AllTokensSplit(lines, n);
    } else {
      assert [lines[0]] + lines[1..] == lines;
      AllTokensCons(lines[0], lines[1..]);
      if Strip(lines[0]) == [] {
        HasToken(lines[0]);
        ParseKeepsTokens(lines[1..], []);
        NothingToKeep();
        ContentOfTwo(text, ParseBlocks(lines[1..], []));
      } else {
        ParseKeepsTokens(lines[1..], text + [lines[0]]);
        AllTokensSnoc(text, lines[0]);
      }
    }
  }

  lemma NothingToKeep()
    ensures AllTokens([]) == [] && Content([]) == []
  {
    assert Texts([]) == [];
  }

  /** No block is blank. */
  lemma {:induction false} BlocksHaveTokens(lines: seq<Str>, text: seq<Str>, i: nat)
    requires i < |ParseBlocks(lines, text)|
    ensures Tokens(ParseBlocks(lines, text)[i].text) != []
    decreases |lines|
  {
    hide Tokens, Join, Strip, OpensFence, CodeTaken, CodeBlock, Paragraph;
    ParagraphTokens(text);
    var before := |Paragraph(text)|;
    if lines == [] {
    } else if OpensFence(Strip(lines[0])) {
      var n := CodeTaken(lines);
      CodeBlockTokens(lines, n);
      if i > before { BlocksHaveTokens(lines[n..], [], i - before - 1); }
    } else if Strip(lines[0]) == [] {
      if i >= before { BlocksHaveTokens(lines[1..], [], i - before); }
    } else {
      BlocksHaveTokens(lines[1..], text + [lines[0]], i);
    }
  }

  /** Cutting a section into blocks loses no token and merges none. */
  lemma BlocksKeepTokens(value: Str)
    ensures Content(ParseBlocks(Lines(NormalizeNewlines(value)), [])) == Tokens(value)
  {
    hide *;
    ParseKeepsTokens(Lines(NormalizeNewlines(value)), []);
    NothingToKeep();
    TokensLines(NormalizeNewlines(value));
    TokensNormalizeNewlines(value);
  }

  // ---------- how a block ends ----------

  predicate EndsInFeed(s: Str) {
    s != [] && s[|s| - 1] == LF
  }

  lemma {:induction false} ClosingLine(lines: seq<Str>, fence: Str)
    requires CodeLength(lines, fence) < |lines|
    ensures CodeLength(lines, fence) > 0 && Strip(lines[CodeLength(lines, fence) - 1]) == fence
  {
    hide Strip;
    if Strip(lines[0]) != fence { ClosingLine(lines[1..], fence); }
  }

  lemma ParagraphEnds(lines: seq<Str>, i: nat)
    requires i < |Paragraph(lines)|
    ensures !EndsInFeed(Paragraph(lines)[i].text)
  {
    hide LeftStrip, Join;
  }

  lemma ClosedEnds(lines: seq<Str>, n: nat)
    requires 0 < n <= |lines| && LF !in lines[n - 1] && Strip(lines[n - 1]) != []
    ensures !EndsInFeed(CodeBlock(lines, n).text)
  {
    var text := Join(lines[..n], [LF]);
    assert lines[n - 1] != [] by { assert Strip([]) == []; }
    if n > 1 {
      assert lines[..n] == lines[..n - 1] + [lines[n - 1]];
      JoinSnoc(lines[..n - 1], [LF], lines[n - 1]);
    }
    assert text[|text| - 1] == lines[n - 1][|lines[n - 1]| - 1];
  }

  lemma NoMoreBlocks(lines: seq<Str>, n: nat)
    requires n == |lines|
    ensures ParseBlocks(lines[n..], []) == []
  {
    assert Strip([]) == [];
  }

  lemma FenceNotBlank(line: Str)
    requires OpensFence(Strip(line))
    ensures FenceOf(line) != []
  {
  }

  /** Only code that is never closed can end in a line feed, and no block follows it. */
  lemma {:induction false} OnlyTheLastEndsInFeed(lines: seq<Str>, text: seq<Str>, i: nat)
    requires i < |ParseBlocks(lines, text)| && forall k :: 0 <= k < |lines| ==> LF !in lines[k]
    ensures EndsInFeed(ParseBlocks(lines, text)[i].text) ==> i == |ParseBlocks(lines, text)| - 1
    decreases |lines|
  {
    hide Strip, OpensFence, CodeBlock, Paragraph, EndsInFeed, FenceOf, Join;
    var before := |Paragraph(text)|;
    if i < before { ParagraphEnds(text, i); }
    if lines == [] {
    } else if OpensFence(Strip(lines[0])) {
      var n := CodeTaken(lines);
      if i > before {
        OnlyTheLastEndsInFeed(lines[n..], [], i - before - 1);
      } else if n == |lines| {
        NoMoreBlocks(lines, n);
      } else {
        ClosingLine(lines[1..], FenceOf(lines[0]));
        FenceNotBlank(lines[0]);
        ClosedEnds(lines, n);
      }
    } else if Strip(lines[0]) == [] {
      if i >= before { OnlyTheLastEndsInFeed(lines[1..], [], i - before); }
    } else {
      OnlyTheLastEndsInFeed(lines[1..], text + [lines[0]], i);
    }
  }
}
