/** Sections that the chunker receives and for which the expected statements about it fail. */
module ChunkingExamples {
  import opened Common
  import opened Text
  import opened TokenCounter
  import opened Markdown
  import opened Fences
  import opened CodeSplit
  import opened Oversized
  import opened Packing
  import opened Chunking

  /** Three backticks, one word, three backticks. */
  const ONE_WORD: Str := [Tick, Tick, Tick, LF, Word(120), LF, Tick, Tick, Tick]

  /** Three backticks, an empty line, three backticks. */
  const NO_WORD: Str := [Tick, Tick, Tick, LF, LF, Tick, Tick, Tick]

  lemma NoTicksIn(code: Str, n: nat)
    requires n >= 1 && code == [Word(120)]
    ensures NoRun(code, n)
  {
    assert code[0..] == code && code[1..] == [];
  }

  lemma OneWordPrinted()
    ensures ONE_WORD == Wrapped(Ticks(3), None, [Word(120)]) && CR !in ONE_WORD
    ensures Printable(Code([Word(120)], None))
  {
    assert Ticks(3) == [Tick, Tick, Tick];
  }

  lemma BlocksOfOneWord()
    ensures BlocksOf(ONE_WORD) == [Block(ONE_WORD, true, None)]
  {
    hide Lines, ParseBlocks, NormalizeNewlines, Wrapped, NoRun, Printable, Ticks;
    NormalizePlain(ONE_WORD);
    NoTicksIn([Word(120)], 3);
    OneWordPrinted();
    ReadCode(3, None, [Word(120)], []);
    assert Lines(ONE_WORD) + [] == Lines(ONE_WORD);
  }

  lemma OneWordIsTooWide()
    ensures SectionTooWide(Settings(6, 6, 0, 1), ONE_WORD)
  {
    hide BlocksOf, TooWide, Rewrap;
    BlocksOfOneWord();
    TooWideExample();
    OneWordRewrapped();
    assert TooWide(BlocksOf(ONE_WORD)[0], 6);
  }

  /** With a limit of six tokens, chunking this section raises: however it is cut, a chunk is too large. */
  lemma ChunkIsTooLarge()
    ensures SectionTooWide(Settings(6, 6, 0, 1), ONE_WORD)
    ensures forall packed: seq<Chunk>, c: Cutting :: CutsSection(Settings(6, 6, 0, 1), ONE_WORD, packed, c) ==>
              exists i :: 0 <= i < |packed| && |Tokens(packed[i].text)| > 6
  {
    hide Tokens, CutsSection, SectionTooWide;
    var s := Settings(6, 6, 0, 1);
    OneWordIsTooWide();
    forall packed: seq<Chunk>, c: Cutting | CutsSection(s, ONE_WORD, packed, c)
      ensures exists i :: 0 <= i < |packed| && |Tokens(packed[i].text)| > 6
    {
      TooLargeIff(s, ONE_WORD, packed, c);
    }
  }

  lemma OneWordRewrapped()
    ensures Rewrap(Fenced([Tick, Tick, Tick], [], [Word(120)], true), [Word(120)]) == ONE_WORD
  {
  }

  lemma BlocksOfNoWord()
    ensures BlocksOf(NO_WORD) == [Block(NO_WORD, true, None)]
  {
    hide ParseBlocks, Lines, OpensFence, FenceOf, Strip, TickRun, CodeLength, LanguageRun, NormalizeNewlines,
            Paragraph, Ticks, Join;
    ThreeTicksOnly();
    var fence: Str := [Tick, Tick, Tick];
    NormalizePlain(NO_WORD);
    LinesOfNoWord();
    var lines := [fence, [], fence];
    NoInfo();
    OpeningLine(3, []);
    assert Ticks(3) + [] == fence;
    FenceEnds(fence);
    ParseFence(lines, []);
    assert lines[1..] == [[], fence];
    assert CodeTaken(lines) == 3;
    assert lines[..3] == lines && lines[3..] == [];
    NothingBegun();
    ParseNone([]);
    JoinedNoWord();
    assert InfoOf(fence) == [] && LanguageOf([]) == None;
    assert CodeBlock(lines, 3) == Block(NO_WORD, true, None);
  }

  lemma ThreeTicksOnly()
    ensures Ticks(3) == [Tick, Tick, Tick] && CR !in NO_WORD
  {
  }

  lemma LinesOfNoWord()
    ensures Lines(NO_WORD) == [[Tick, Tick, Tick], [], [Tick, Tick, Tick]]
  {
    hide Lines, LineEnd;
    var fence: Str := [Tick, Tick, Tick];
    var rest := [LF] + fence;
    LinesConcat(fence, rest);
    assert NO_WORD == fence + [LF] + rest;
    LinesStep(rest);
    LineEndIs(rest, 0);
    assert rest[..0] == [] && rest[1..] == fence;
    OneLineOnly(fence);
  }

  lemma OneLineOnly(s: Str)
    requires s != [] && LF !in s
    ensures Lines(s) == [s]
  {
    hide Lines;
    LinesStep(s);
    assert LineEnd(s) == |s|;
  }

  lemma FenceEnds(fence: Str)
    requires Strip(fence) == fence && fence != []
    ensures CodeLength([[], fence], fence) == 2
  {
    assert Strip([]) == [];
    assert [[], fence][1..] == [fence];
  }

  lemma JoinedNoWord()
    ensures Join([[Tick, Tick, Tick], [], [Tick, Tick, Tick]], [LF]) == NO_WORD
  {
    var fence: Str := [Tick, Tick, Tick];
    var lines: seq<Str> := [fence, [], fence];
    assert lines[..2] == [fence, []] && lines[..2][..1] == [fence];
    assert Join([fence], [LF]) == fence;
    assert Join([fence, []], [LF]) == fence + [LF] + [];
  }

  /** With a limit of five tokens the six of this section are lost: however it is cut, they are not kept. */
  lemma SectionVanishes()
    ensures |Tokens(NO_WORD)| == 6
    ensures forall packed: seq<Chunk>, c: Cutting :: CutsSection(Settings(5, 5, 0, 1), NO_WORD, packed, c) ==>
              Flat(c.keeps) != Tokens(NO_WORD)
  {
    hide Tokens, CutsSection, ParseBlocks, Vanishes, Rewrap;
    var s := Settings(5, 5, 0, 1);
    BlocksOfNoWord();
    VanishesExample();
    NoWordRewrapped();
    NoWordTokens();
    forall packed: seq<Chunk>, c: Cutting | CutsSection(s, NO_WORD, packed, c)
        ensures Flat(c.keeps) != Tokens(NO_WORD) {
      PartsKeepSection(s, NO_WORD, packed, c);
      assert Vanishes(BlocksOf(NO_WORD)[0], 5);
    }
  }

  lemma NoWordRewrapped()
    ensures Rewrap(Fenced([Tick, Tick, Tick], [], [], true), []) == NO_WORD
  {
  }

  lemma NoWordTokens()
    ensures |Tokens(NO_WORD)| == 6
  {
    hide Tokens;
    var f := Fenced([Tick, Tick, Tick], [], [], true);
    NoWordRewrapped();
    RewrapTokens(f, []);
    ThreeTicks();
    TokensOfNothing();
    assert f.Open() == f.fence;
  }
}
