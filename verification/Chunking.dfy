/** DocumentChunker.chunk: the chunks of a document, their size bound, and what they keep of its text. */
module Chunking {
  import opened Text
  import opened TokenCounter
  import opened Markdown
  import opened CodeSplit
  import opened Oversized
  import opened Packing

  // ---------- the parts of a section ----------

  ghost function BlocksOf(text: Str): seq<Block> {
    ParseBlocks(Lines(NormalizeNewlines(text)), [])
  }

  /** The blocks that leave at least one part behind. */
  ghost function Survivors(blocks: seq<Block>, maximum: nat): seq<Block> {
    if blocks == [] then []
    else
      var last := blocks[|blocks| - 1];
      Survivors(blocks[..|blocks| - 1], maximum) + (if Vanishes(last, maximum) then [] else [last])
  }

  /** How a section was cut: its parts, the block each part comes from and the tokens of it that the
      part keeps, the parts block by block, and the plan and the layout by which they were packed. */
  datatype Cutting = Cutting(parts: seq<Block>, sources: seq<Block>, keeps: seq<seq<Str>>, splits: seq<seq<Block>>,
                             plan: Plan, layout: Layout)

  /** The parts are those of the blocks, one block after the other, each as SplitOversized writes it. */
  ghost predicate SplitsOf(blocks: seq<Block>, maximum: nat, parts: seq<Block>, splits: seq<seq<Block>>) {
    && |splits| == |blocks| && Flat(splits) == parts
    && forall k :: 0 <= k < |blocks| ==> AsWritten(blocks[k], maximum, splits[k])
  }

  lemma OneMoreSplit(blocks: seq<Block>, maximum: nat, parts: seq<Block>, splits: seq<seq<Block>>, block: Block,
                     more: seq<Block>)
    requires SplitsOf(blocks, maximum, parts, splits) && AsWritten(block, maximum, more)
    ensures SplitsOf(blocks + [block], maximum, parts + more, splits + [more])
  {
    hide AsWritten;
    FlatSnoc(splits, more);
  }

  lemma NoSplits(maximum: nat)
    ensures SplitsOf([], maximum, [], [])
  {
  }

  ghost predicate PartsOf(blocks: seq<Block>, maximum: nat, parts: seq<Block>, sources: seq<Block>,
          keeps: seq<seq<Str>>) {
    && |parts| == |sources| && |parts| == |keeps|
    && (forall i :: 0 <= i < |parts| ==> Carries(parts[i], keeps[i], sources[i], maximum) && TokenCount(parts[i]) > 0)
    && (forall i :: 0 <= i < |sources| ==> sources[i] in blocks)
    && Flat(keeps) == Content(Survivors(blocks, maximum))
    && ((exists i :: 0 <= i < |parts| && TokenCount(parts[i]) > maximum) <==> AnyTooWide(blocks, maximum))
  }

  ghost predicate AnyTooWide(blocks: seq<Block>, maximum: nat) {
    exists k :: 0 <= k < |blocks| && TooWide(blocks[k], maximum)
  }

  function Copies(block: Block, n: nat): (r: seq<Block>)
    ensures |r| == n && forall i :: 0 <= i < n ==> r[i] == block
  {
    seq(n, _ => block)
  }

  lemma AddBlock(blocks: seq<Block>, maximum: nat, parts: seq<Block>, sources: seq<Block>, keeps: seq<seq<Str>>,
                 block: Block, more: seq<Block>, moreKeeps: seq<seq<Str>>)
    requires PartsOf(blocks, maximum, parts, sources, keeps) && SplitOf(block, maximum, more, moreKeeps)
    ensures PartsOf(blocks + [block], maximum, parts + more, sources + Copies(block, |more|), keeps + moreKeeps)
  {
    hide Tokens, Content, Flat, TooWide, Vanishes, Carries;
    var all := blocks + [block];
    assert all[..|blocks|] == blocks && all[|blocks|] == block;
    FlatConcat(keeps, moreKeeps);
    ContentConcat(Survivors(blocks, maximum), [block]);
    ContentOne(block);
    assert Survivors(blocks, maximum) + [] == Survivors(blocks, maximum);
    WideEither(blocks, maximum, parts, block, more);
  }

  lemma WideEither(blocks: seq<Block>, maximum: nat, parts: seq<Block>, block: Block, more: seq<Block>)
    requires (exists i :: 0 <= i < |parts| && TokenCount(parts[i]) > maximum) <==> AnyTooWide(blocks, maximum)
    requires (exists i :: 0 <= i < |more| && TokenCount(more[i]) > maximum) <==> TooWide(block, maximum)
    ensures (exists i :: 0 <= i < |parts + more| && TokenCount((parts + more)[i]) > maximum)
            <==> AnyTooWide(blocks + [block], maximum)
  {
    hide TooWide, TokenCount;
    var both, all := parts + more, blocks + [block];
    if i :| 0 <= i < |both| && TokenCount(both[i]) > maximum {
      if i < |parts| {
        assert both[i] == parts[i];
        var k :| 0 <= k < |blocks| && TooWide(blocks[k], maximum);
        assert all[k] == blocks[k];
      } else {
        assert both[i] == more[i - |parts|];
        assert TooWide(block, maximum) && all[|blocks|] == block;
      }
    }
    if k :| 0 <= k < |all| && TooWide(all[k], maximum) {
      if k < |blocks| {
        assert all[k] == blocks[k];
        var i :| 0 <= i < |parts| && TokenCount(parts[i]) > maximum;
        assert both[i] == parts[i];
      } else {
        var i :| 0 <= i < |more| && TokenCount(more[i]) > maximum;
        assert both[|parts| + i] == more[i];
      }
    }
  }

  lemma NoParts(maximum: nat)
    ensures PartsOf([], maximum, [], [], [])
  {
    NothingToKeep();
    FlatOfNone();
  }

  // ---------- _chunk_section ----------

  ghost predicate CutsSection(s: Settings, text: Str, packed: seq<Chunk>, c: Cutting) {
    && PartsOf(BlocksOf(text), s.maximum, c.parts, c.sources, c.keeps)
    && SplitsOf(BlocksOf(text), s.maximum, c.parts, c.splits)
    && PackedBy(s, c.parts, packed, c.plan)
    && Done(c.plan) == |c.parts|
    && Written(s, c.parts, packed, c.plan, c.layout)
  }

  /** _chunk_section */
  method ChunkSection(s: Settings, text: Str) returns (packed: seq<Chunk>, ghost c: Cutting)
    requires s.Valid()
    ensures CutsSection(s, text, packed, c)
    ensures exists d :: CutsSection(s, text, packed, d)
  {
    hide *;
    var blocks := MarkdownBlocks(text);
    var parts: seq<Block> := [];
    ghost var sources: seq<Block> := [];
    ghost var keeps: seq<seq<Str>> := [];
    ghost var splits: seq<seq<Block>> := [];
    MaximumPositive(s);
    NoParts(s.maximum);
    NoSplits(s.maximum);
    var k := 0;
    while k < |blocks|
      invariant 0 <= k <= |blocks|
      invariant PartsOf(blocks[..k], s.maximum, parts, sources, keeps)
      invariant SplitsOf(blocks[..k], s.maximum, parts, splits)
    {
      BlockHasTokens(text, blocks, k);
      var more, moreKeeps := SplitOversized(blocks[k], s.maximum);
      AddBlock(blocks[..k], s.maximum, parts, sources, keeps, blocks[k], more, moreKeeps);
      OneMoreSplit(blocks[..k], s.maximum, parts, splits, blocks[k], more);
      assert blocks[..k] + [blocks[k]] == blocks[..k + 1];
      splits := splits + [more];
      parts := parts + more;
      sources := sources + Copies(blocks[k], |more|);
      keeps := keeps + moreKeeps;
      k := k + 1;
    }
    assert blocks[..k] == blocks;
    ghost var plan, layout;
    packed, plan, layout := Pack(s, parts);
    c := Cutting(parts, sources, keeps, splits, plan, layout);
    SectionIsCut(s, text, blocks, packed, c);
  }

  lemma MaximumPositive(s: Settings)
    requires s.Valid()
    ensures s.maximum >= 1
  {
  }

  lemma BlockHasTokens(text: Str, blocks: seq<Block>, k: nat)
    requires blocks == ParseBlocks(Lines(NormalizeNewlines(text)), []) && k < |blocks|
    ensures TokenCount(blocks[k]) > 0
  {
    BlocksHaveTokens(Lines(NormalizeNewlines(text)), [], k);
  }

  lemma SectionIsCut(s: Settings, text: Str, blocks: seq<Block>, packed: seq<Chunk>, c: Cutting)
    requires blocks == ParseBlocks(Lines(NormalizeNewlines(text)), [])
    requires PartsOf(blocks, s.maximum, c.parts, c.sources, c.keeps)
    requires SplitsOf(blocks, s.maximum, c.parts, c.splits)
    requires PackedBy(s, c.parts, packed, c.plan) && Done(c.plan) == |c.parts|
    requires Written(s, c.parts, packed, c.plan, c.layout)
    ensures CutsSection(s, text, packed, c)
  {
    hide PartsOf, PackedBy, SplitsOf, Written;
  }

  // ---------- the lines of a chunk ----------

  /** The lines of the texts, one text after the other, with exactly one empty line between two texts. */
  ghost predicate Parted(lines: seq<Str>, texts: seq<Str>)
    decreases |texts|
  {
    if texts == [] then lines == []
    else if |texts| == 1 then lines == Lines(texts[0])
    else
      var last := Lines(texts[|texts| - 1]);
      var n := |lines| - |last|;
      && n >= 1 && lines[n..] == last && lines[n - 1] == []
      && Parted(lines[..n - 1], texts[..|texts| - 1])
  }

  /** Not empty, and not ending in a line feed. */
  predicate EndsInside(s: Str) {
    s != [] && s[|s| - 1] != LF
  }

  /** Not empty, and without white space at its ends. */
  predicate Trimmed(s: Str) {
    s != [] && !IsSpace(s[0]) && !IsSpace(s[|s| - 1])
  }

  lemma TrimmedEndsInside(s: Str)
    requires Trimmed(s)
    ensures EndsInside(s) && Strip(s) == s
  {
  }

  lemma {:induction false} LaidBegins(whole: Str, texts: seq<Str>)
    requires texts != [] && Laid(whole, texts) && texts[0] != []
    ensures whole != [] && whole[0] == texts[0][0]
  {
    if |texts| > 1 {
      LaidBegins(whole[..|whole| - |texts[|texts| - 1]| - 2], texts[..|texts| - 1]);
    }
  }

  lemma {:induction false} LaidEnds(whole: Str, texts: seq<Str>)
    requires texts != [] && Laid(whole, texts) && texts[|texts| - 1] != []
    ensures whole != [] && whole[|whole| - 1] == texts[|texts| - 1][|texts[|texts| - 1]| - 1]
  {
    var last := texts[|texts| - 1];
    if |texts| > 1 {
      assert whole[|whole| - |last|..][|last| - 1] == last[|last| - 1];
    }
  }

  /** Texts that are laid out have their lines parted. */
  lemma {:induction false} LaidIsParted(whole: Str, texts: seq<Str>)
    requires Laid(whole, texts) && forall k :: 0 <= k < |texts| - 1 ==> EndsInside(texts[k])
    ensures Parted(Lines(whole), texts)
    decreases |texts|
  {
    hide Lines;
    if texts == [] {
      NoTextNoLines();
    } else if |texts| > 1 {
      var front, last := texts[..|texts| - 1], texts[|texts| - 1];
      var cut := |whole| - |last|;
      var before := whole[..cut - 2];
      LaidIsParted(before, front);
      LaidEnds(before, front);
      LinesAroundBlank(before, last);
      assert whole == before + [LF, LF] + last;
      assert (Lines(before) + [[]] + Lines(last))[..|Lines(before)|] == Lines(before);
    }
  }

  lemma NoTextNoLines()
    ensures Lines([]) == []
  {
  }

  lemma LinesAroundBlank(a: Str, b: Str)
    requires EndsInside(a)
    ensures Lines(a + [LF, LF] + b) == Lines(a) + [[]] + Lines(b)
  {
    LinesConcat(a, [LF] + b);
    assert a + [LF, LF] + b == a + [LF] + ([LF] + b);
    assert ([LF] + b)[1..] == b && ([LF] + b)[..0] == [];
  }

  /** Only the last part of a section can end in a line feed. */
  lemma {:induction false} OnlyTheLastPartEndsInFeed(blocks: seq<Block>, maximum: nat, parts: seq<Block>,
                                                     splits: seq<seq<Block>>, i: nat)
    requires SplitsOf(blocks, maximum, parts, splits) && i < |parts|
    requires forall k :: 0 <= k < |blocks| - 1 ==> !EndsInFeed(blocks[k].text)
    ensures EndsInFeed(parts[i].text) ==> i == |parts| - 1
  {
    var n := |blocks| - 1;
    var front, last := Flat(splits[..n]), splits[n];
    assert parts == front + last;
    if i < |front| {
      WholeOrInside(blocks[..n], maximum, front, splits[..n], i);
    } else {
      assert AsWritten(blocks[n], maximum, last);
    }
  }

  lemma {:induction false} WholeOrInside(blocks: seq<Block>, maximum: nat, parts: seq<Block>, splits: seq<seq<Block>>,
                                         i: nat)
    requires SplitsOf(blocks, maximum, parts, splits) && i < |parts|
    requires forall k :: 0 <= k < |blocks| ==> !EndsInFeed(blocks[k].text)
    ensures !EndsInFeed(parts[i].text)
  {
    var n := |blocks| - 1;
    var front, last := Flat(splits[..n]), splits[n];
    assert parts == front + last;
    if i < |front| {
      WholeOrInside(blocks[..n], maximum, front, splits[..n], i);
    } else {
      assert AsWritten(blocks[n], maximum, last);
    }
  }

  lemma PartsEndInside(s: Settings, text: Str, packed: seq<Chunk>, c: Cutting, i: nat)
    requires CutsSection(s, text, packed, c) && i < |c.parts|
    ensures c.parts[i].text != []
    ensures i < |c.parts| - 1 ==> EndsInside(c.parts[i].text)
  {
    hide Tokens, ParseBlocks, Carries, Flat, Content, SplitsOf, PackedBy, Written, Lines;
    var blocks := BlocksOf(text);
    var lines := Lines(NormalizeNewlines(text));
    forall k | 0 <= k < |blocks| - 1 ensures !EndsInFeed(blocks[k].text) {
      OnlyTheLastEndsInFeed(lines, [], k);
    }
    OnlyTheLastPartEndsInFeed(blocks, s.maximum, c.parts, c.splits, i);
    NoText(c.parts[i].text);
  }

  lemma {:induction false} LaidIsJoined(whole: Str, texts: seq<Str>)
    requires Laid(whole, texts)
    ensures whole == Join(texts, BLANK_LINE)
  {
    if |texts| > 1 {
      var last := texts[|texts| - 1];
      LaidIsJoined(whole[..|whole| - |last| - 2], texts[..|texts| - 1]);
      assert whole == whole[..|whole| - |last| - 2] + [LF, LF] + last;
    }
  }

  /** A flush is white space taken off the ends of its parts' lines, parted by one empty line each. */
  ghost predicate LinesOfParts(parts: seq<Block>, f: Flushed) {
    && f.lo < f.hi <= |parts| && Trimmed(f.text)
    && exists raw :: f.text == Strip(raw) && Parted(Lines(raw), Texts(parts[f.lo..f.hi]))
  }

  lemma FlushedLines(s: Settings, text: Str, packed: seq<Chunk>, c: Cutting, f: Flushed)
    requires CutsSection(s, text, packed, c) && IsFlushed(c.parts, f)
    ensures LinesOfParts(c.parts, f)
  {
    hide Tokens, CutsSection, Content, Parted, Laid, Lines, EndsInside, Strip;
    var own := c.parts[f.lo..f.hi];
    var raw :| Laid(raw, Texts(own)) && f.text == Strip(raw);
    forall k | 0 <= k < |Texts(own)| - 1 ensures EndsInside(Texts(own)[k]) {
      PartsEndInside(s, text, packed, c, f.lo + k);
    }
    LaidIsParted(raw, Texts(own));
    LaidIsJoined(raw, Texts(own));
    JoinedBlocks(own);
    SomePartHasTokens(s, text, packed, c, f.lo, f.hi);
    StrippedIsTrimmed(raw);
  }

  lemma SomePartHasTokens(s: Settings, text: Str, packed: seq<Chunk>, c: Cutting, lo: nat, hi: nat)
    requires CutsSection(s, text, packed, c) && lo < hi <= |c.parts|
    ensures Content(c.parts[lo..hi]) != []
  {
    hide Tokens, Content, SplitsOf, PackedBy, Written, Carries, Flat;
    ContentSplit(c.parts, lo, lo + 1, hi);
    AmountOne(c.parts, lo);
  }

  lemma StrippedIsTrimmed(raw: Str)
    requires Tokens(Strip(raw)) != []
    ensures Trimmed(Strip(raw))
  {
    NoText(Strip(raw));
  }

  lemma TailIsTrimmed(value: Str, maximum: nat, tail: Str)
    requires IsTail(value, maximum, tail)
    ensures tail == [] || (Trimmed(tail) && IsStretch(value, tail))
  {
    hide Tokens, Begins, Ends, LeftStrip, RightStrip;
    if maximum > 0 {
      var i, j :| 0 <= i <= j <= |value| && Begins(value, i) && Ends(value, j) && tail == Strip(value[i..j]);
    }
  }

  /** The flushes of the chunks hold the parts, one after the other and each once. */
  lemma FlushesHoldParts(s: Settings, text: Str, packed: seq<Chunk>, c: Cutting, i: nat)
    requires CutsSection(s, text, packed, c) && i < |packed|
    ensures |c.layout.flushes| == |packed| && |c.layout.tails| == |packed|
    ensures var flushes := c.layout.flushes[i];
            && flushes != [] && (i == 0 ==> flushes[0].lo == 0)
            && (forall j :: 0 <= j < |flushes| ==> IsFlushed(c.parts, flushes[j]))
            && (forall j :: 1 <= j < |flushes| ==> flushes[j - 1].hi == flushes[j].lo)
            && (i == |packed| - 1 ==> flushes[|flushes| - 1].hi == |c.parts|)
    ensures i + 1 < |packed| ==>
              var flushes, next := c.layout.flushes[i], c.layout.flushes[i + 1];
              next != [] && flushes[|flushes| - 1].hi == next[0].lo
  {
    hide Tokens, Content, PartsOf, SplitsOf, ChunkOf, Laid, IsFlushed, IsTail;
    assert WrittenAt(s, c.parts, packed, c.plan, c.layout, i);
    if i + 1 < |packed| { assert WrittenAt(s, c.parts, packed, c.plan, c.layout, i + 1); }
  }

  lemma ChunkIsLaid(s: Settings, text: Str, packed: seq<Chunk>, c: Cutting, i: nat)
    requires CutsSection(s, text, packed, c) && i < |packed|
    ensures |c.layout.flushes| == |packed| && |c.layout.tails| == |packed|
    ensures var tail, flushes := c.layout.tails[i], c.layout.flushes[i];
            && Laid(packed[i].text, (if tail == [] then [] else [tail]) + FlushedTexts(flushes))
            && (tail != [] ==> i > 0 && IsTail(packed[i - 1].text, s.overlap, tail))
  {
    hide Tokens, Content, PartsOf, SplitsOf, PackedBy, Laid, IsFlushed, IsTail, Chained;
    assert WrittenAt(s, c.parts, packed, c.plan, c.layout, i);
  }

  /** The lines of chunk i, one by one: those of the overlap, when it has one, and those of the parts that each of
      its flushes adds, with exactly one empty line between two parts, two flushes, or the overlap and the rest.
      The overlap is a stretch of the text of the chunk before. A flush has lost the white space at its ends,
      and nothing else. */
  lemma ChunkLines(s: Settings, text: Str, packed: seq<Chunk>, c: Cutting, i: nat)
    requires CutsSection(s, text, packed, c) && i < |packed|
    ensures |c.layout.flushes| == |packed| && |c.layout.tails| == |packed|
    ensures var tail, flushes := c.layout.tails[i], c.layout.flushes[i];
            && Parted(Lines(packed[i].text), (if tail == [] then [] else [tail]) + FlushedTexts(flushes))
            && Trimmed(packed[i].text)
            && (forall j :: 0 <= j < |flushes| ==> LinesOfParts(c.parts, flushes[j]))
            && (tail != [] ==> i > 0 && IsStretch(packed[i - 1].text, tail))
  {
    hide Tokens, CutsSection, Parted, Laid, Lines, EndsInside, LinesOfParts, IsFlushed, IsTail, IsStretch, Strip,
            Trimmed;
    FlushesHoldParts(s, text, packed, c, i);
    ChunkIsLaid(s, text, packed, c, i);
    var tail, flushes := c.layout.tails[i], c.layout.flushes[i];
    forall j | 0 <= j < |flushes| ensures LinesOfParts(c.parts, flushes[j]) && Trimmed(flushes[j].text) {
      FlushedLines(s, text, packed, c, flushes[j]);
      LinesOfPartsEnd(c.parts, flushes[j]);
    }
    if tail != [] { TailIsTrimmed(packed[i - 1].text, s.overlap, tail); }
    var texts := (if tail == [] then [] else [tail]) + FlushedTexts(flushes);
    forall k | 0 <= k < |texts| ensures Trimmed(texts[k]) && EndsInside(texts[k]) {
      if k == 0 && tail != [] {
        assert texts[k] == tail;
      } else {
        assert texts[k] == flushes[k - |texts| + |flushes|].text;
      }
      TrimmedEndsInside(texts[k]);
    }
    LaidIsParted(packed[i].text, texts);
    LaidIsTrimmed(packed[i].text, texts);
  }

  lemma LinesOfPartsEnd(parts: seq<Block>, f: Flushed)
    requires LinesOfParts(parts, f)
    ensures Trimmed(f.text)
  {
  }

  lemma LaidIsTrimmed(whole: Str, texts: seq<Str>)
    requires texts != [] && Laid(whole, texts) && Trimmed(texts[0]) && Trimmed(texts[|texts| - 1])
    ensures Trimmed(whole)
  {
    hide Laid;
    LaidBegins(whole, texts);
    LaidEnds(whole, texts);
  }

  // ---------- nothing is lost ----------

  lemma {:induction false} AllSurvive(blocks: seq<Block>, maximum: nat)
    requires forall k :: 0 <= k < |blocks| ==> !Vanishes(blocks[k], maximum)
    ensures Survivors(blocks, maximum) == blocks
  {
    hide Vanishes;
    if blocks != [] {
      AllSurvive(blocks[..|blocks| - 1], maximum);
    }
  }

  lemma {:induction false} VanishedTokens(blocks: seq<Block>, maximum: nat)
    ensures |Content(Survivors(blocks, maximum))| <= |Content(blocks)|
    ensures (exists k :: 0 <= k < |blocks| && Vanishes(blocks[k], maximum)) ==>
              |Content(Survivors(blocks, maximum))| < |Content(blocks)|
  {
    hide Tokens, Content, Vanishes;
    if blocks != [] {
      var front, last := blocks[..|blocks| - 1], blocks[|blocks| - 1];
      VanishedTokens(front, maximum);
      ContentConcat(front, [last]);
      ContentOne(last);
      assert blocks == front + [last];
      if Vanishes(last, maximum) {
        VanishedIsLarge(last, maximum);
        assert Survivors(front, maximum) + [] == Survivors(front, maximum);
      } else {
        ContentConcat(Survivors(front, maximum), [last]);
        if k :| 0 <= k < |blocks| && Vanishes(blocks[k], maximum) {
          assert blocks[k] == front[k];
        }
      }
    }
  }

  lemma VanishedIsLarge(block: Block, maximum: nat)
    requires Vanishes(block, maximum)
    ensures |Tokens(block.text)| > maximum
  {
  }

  /** The tokens kept by the parts, in order, are exactly the tokens of the section; the only exception
      is a fence above the limit with nothing inside, of which no part is made. */
  lemma PartsKeepSection(s: Settings, text: Str, packed: seq<Chunk>, c: Cutting)
    requires CutsSection(s, text, packed, c)
    ensures Flat(c.keeps) == Tokens(text)
            <==> (forall k :: 0 <= k < |BlocksOf(text)| ==> !Vanishes(BlocksOf(text)[k], s.maximum))
  {
    hide Tokens, Content, Vanishes, PackedBy, ParseBlocks;
    var blocks := BlocksOf(text);
    BlocksKeepTokens(text);
    if forall k :: 0 <= k < |blocks| ==> !Vanishes(blocks[k], s.maximum) {
      AllSurvive(blocks, s.maximum);
    } else {
      VanishedTokens(blocks, s.maximum);
    }
  }

  /** The overlap that chunk i begins with. */
  ghost function Overlap(s: Settings, packed: seq<Chunk>, plan: Plan, i: nat): seq<Str>
    requires i < |packed| && i < |plan.overlaps|
  {
    if plan.overlaps[i] then PreviousTail(s, packed, i) else []
  }

  /** The tokens of the first n chunks, each without its overlap. */
  ghost function OwnTokens(s: Settings, packed: seq<Chunk>, plan: Plan, n: nat): seq<Str>
    requires n <= |packed| && n <= |plan.overlaps|
  {
    if n == 0 then []
    else
      var all, cut := Tokens(packed[n - 1].text), |Overlap(s, packed, plan, n - 1)|;
      OwnTokens(s, packed, plan, n - 1) + (if cut <= |all| then all[cut..] else [])
  }

  /** After dropping the overlap of each chunk, the chunks hold the parts' tokens, in order. */
  lemma {:induction false} ChunksHoldParts(s: Settings, parts: seq<Block>, packed: seq<Chunk>, plan: Plan, n: nat)
    requires PackedBy(s, parts, packed, plan) && n <= |packed|
    ensures plan.bounds[n] <= |parts|
    ensures OwnTokens(s, packed, plan, n) == Content(parts[..plan.bounds[n]])
    ensures forall i :: 0 <= i < n ==> |Overlap(s, packed, plan, i)| <= s.overlap
    ensures forall i :: 0 <= i < n ==> Overlap(s, packed, plan, i) <= Tokens(packed[i].text)
  {
    hide Tokens, Content, Last, OverlapsText, Sized, Bounded, HoldsItsParts, Overlap;
    if n == 0 {
      assert parts[..plan.bounds[0]] == [];
      NothingToKeep();
    } else {
      ChunksHoldParts(s, parts, packed, plan, n - 1);
      assert ChunkOf(s, parts, packed, plan, n - 1);
      assert plan.bounds[n - 1] < plan.heads[n - 1];
      ContentSplit(parts, 0, plan.bounds[n - 1], plan.bounds[n]);
      OneOverlap(s, packed, plan, n - 1);
      DropOverlap(s, parts, packed, plan, n - 1);
    }
  }

  lemma DropOverlap(s: Settings, parts: seq<Block>, packed: seq<Chunk>, plan: Plan, i: nat)
    requires WellFormed(parts, packed, plan) && i < |packed| && plan.bounds[i] < plan.heads[i]
    requires HoldsItsParts(s, parts, packed, plan, i)
    ensures Overlap(s, packed, plan, i) <= Tokens(packed[i].text)
    ensures Tokens(packed[i].text)[|Overlap(s, packed, plan, i)|..] ==
        Content(parts[plan.bounds[i]..plan.bounds[i + 1]])
  {
    hide Tokens, Content, Last;
  }

  lemma OneOverlap(s: Settings, packed: seq<Chunk>, plan: Plan, i: nat)
    requires i < |packed| && i < |plan.overlaps|
    ensures |Overlap(s, packed, plan, i)| <= s.overlap
  {
    hide Tokens;
  }

  /** Without overlaps and repeated fences the chunks are the section: when no block is cut by lines,
      their tokens, less the overlaps, are exactly its tokens. */
  lemma ChunksLoseNothing(s: Settings, text: Str, packed: seq<Chunk>, c: Cutting)
    requires CutsSection(s, text, packed, c)
    ensures |c.plan.overlaps| == |packed|
    ensures OwnTokens(s, packed, c.plan, |packed|) == Content(c.parts)
    ensures (forall k :: 0 <= k < |BlocksOf(text)| ==> !SplitByLines(BlocksOf(text)[k], s.maximum)) ==>
              OwnTokens(s, packed, c.plan, |packed|) == Tokens(text)
  {
    hide Tokens, Content, ChunkOf, OwnTokens, SplitByLines, Carries, ParseBlocks, Flat;
    ChunksHoldParts(s, c.parts, packed, c.plan, |packed|);
    assert c.parts[..|c.parts|] == c.parts;
    var blocks := BlocksOf(text);
    if forall k :: 0 <= k < |blocks| ==> !SplitByLines(blocks[k], s.maximum) {
      forall i | 0 <= i < |c.parts| ensures c.keeps[i] == Tokens(c.parts[i].text) {
        var k :| 0 <= k < |blocks| && blocks[k] == c.sources[i];
        assert Carries(c.parts[i], c.keeps[i], c.sources[i], s.maximum);
        NotByLines(c.parts[i], c.keeps[i], blocks[k], s.maximum);
      }
      forall k | 0 <= k < |blocks| ensures !Vanishes(blocks[k], s.maximum) {
      }
      PartsKeepSection(s, text, packed, c);
      KeepsAreTexts(c.parts, c.keeps);
    }
  }

  lemma NotByLines(part: Block, kept: seq<Str>, source: Block, maximum: nat)
    requires Carries(part, kept, source, maximum) && !SplitByLines(source, maximum)
    ensures kept == Tokens(part.text) && !Vanishes(source, maximum)
  {
    hide Tokens;
  }

  lemma {:induction false} KeepsAreTexts(parts: seq<Block>, keeps: seq<seq<Str>>)
    requires |keeps| == |parts|
    requires forall i :: 0 <= i < |parts| ==> keeps[i] == Tokens(parts[i].text)
    ensures Flat(keeps) == Content(parts)
  {
    hide Tokens, Content;
    if parts == [] {
      NothingToKeep();
    } else {
      var n := |parts| - 1;
      KeepsAreTexts(parts[..n], keeps[..n]);
      ContentConcat(parts[..n], [parts[n]]);
      ContentOne(parts[n]);
      assert parts == parts[..n] + [parts[n]];
    }
  }

  // ---------- chunk ----------

  datatype Draft = Draft(ordinal: nat, section: nat, text: Str, tokenCount: nat, characterCount: nat, hasCode: bool)

  datatype Result<+T> = Success(value: T) | ChunkTooLarge

  datatype RawChunk = RawChunk(section: nat, chunk: Chunk)

  function InSection(packed: seq<Chunk>, section: nat): (r: seq<RawChunk>)
    ensures |r| == |packed| && forall i :: 0 <= i < |r| ==> r[i] == RawChunk(section, packed[i])
  {
    seq(|packed|, i requires 0 <= i < |packed| => RawChunk(section, packed[i]))
  }

  /** The chunks of every section, one section after the other. */
  function Numbered(perSection: seq<seq<Chunk>>): seq<RawChunk> {
    if perSection == [] then []
    else
      var n := |perSection| - 1;
      Numbered(perSection[..n]) + InSection(perSection[n], n)
  }

  function DraftOf(ordinal: nat, raw: RawChunk): Draft {
    var text := Strip(raw.chunk.text);
    Draft(ordinal, raw.section, text, |Tokens(text)|, |text|, raw.chunk.hasCode)
  }

  ghost predicate SectionTooWide(s: Settings, text: Str) {
    AnyTooWide(BlocksOf(text), s.maximum)
  }

  /** A chunk is above the limit exactly when one of the parts is. */
  lemma TooLargeIff(s: Settings, text: Str, packed: seq<Chunk>, c: Cutting)
    requires CutsSection(s, text, packed, c)
    ensures (exists i :: 0 <= i < |packed| && |Tokens(packed[i].text)| > s.maximum) <==> SectionTooWide(s, text)
    ensures forall i :: 0 <= i < |packed| ==> Tokens(packed[i].text) != []
  {
    hide Tokens, Content, Carries, ParseBlocks, Flat, TooWide, OverlapsText, Sized;
    var parts, plan := c.parts, c.plan;
    if i :| 0 <= i < |packed| && |Tokens(packed[i].text)| > s.maximum {
      assert ChunkOf(s, parts, packed, plan, i) && plan.bounds[i] < plan.heads[i];
      assert TokenCount(parts[plan.bounds[i]]) > s.maximum;
    }
    if p :| 0 <= p < |parts| && TokenCount(parts[p]) > s.maximum {
      var i := ChunkAround(s, parts, packed, plan, |packed|, p);
      HoldsPart(s, parts, packed, plan, i, p);
      assert |Tokens(packed[i].text)| > s.maximum;
    }
    forall i | 0 <= i < |packed| ensures Tokens(packed[i].text) != [] {
      assert ChunkOf(s, parts, packed, plan, i) && plan.bounds[i] < plan.heads[i];
      HoldsPart(s, parts, packed, plan, i, plan.bounds[i]);
    }
  }

  lemma {:induction false} ChunkAround(s: Settings, parts: seq<Block>, packed: seq<Chunk>, plan: Plan, n: nat, p: nat)
    returns (i: nat)
    requires PackedBy(s, parts, packed, plan) && n <= |packed| && p < plan.bounds[n]
    ensures i < n && plan.bounds[i] <= p < plan.bounds[i + 1]
  {
    hide ChunkOf;
    if p < plan.bounds[n - 1] {
      i := ChunkAround(s, parts, packed, plan, n - 1, p);
    } else {
      i := n - 1;
    }
  }

  lemma HoldsPart(s: Settings, parts: seq<Block>, packed: seq<Chunk>, plan: Plan, i: nat, p: nat)
    requires PackedBy(s, parts, packed, plan) && i < |packed|
    requires plan.bounds[i] <= p < plan.bounds[i + 1] && p < |parts|
    ensures |Tokens(packed[i].text)| >= TokenCount(parts[p])
  {
    hide Tokens, Content, OverlapsText, Sized, Bounded;
    assert ChunkOf(s, parts, packed, plan, i) && plan.bounds[i] < plan.heads[i];
    ContentSplit(parts, plan.bounds[i], p, plan.bounds[i + 1]);
    ContentSplit(parts, p, p + 1, plan.bounds[i + 1]);
    AmountOne(parts, p);
  }

  /** From `start` on there is one draft for each chunk of section k, in order, with its text. */
  ghost predicate DraftsStandAt(drafts: seq<Draft>, start: nat, packed: seq<Chunk>, k: nat) {
    && start + |packed| <= |drafts|
    && forall j :: 0 <= j < |packed| ==>
         var d := drafts[start + j];
         d.section == k && d.text == packed[j].text && d.hasCode == packed[j].hasCode
  }

  /** DocumentChunker.chunk. It refuses a document exactly when a fence leaves no room for the code inside;
      otherwise every chunk is within the limit, numbered in order, and none is dropped. */
  method ChunkDocument(s: Settings, sections: seq<Str>)
    returns (r: Result<seq<Draft>>, ghost perSection: seq<seq<Chunk>>, ghost cuttings: seq<Cutting>,
             ghost starts: seq<nat>)
    requires 1 <= s.minimum <= s.target <= s.maximum && s.overlap < s.target
    ensures |perSection| == |sections| && |cuttings| == |sections|
    ensures forall k :: 0 <= k < |sections| ==> CutsSection(s, sections[k], perSection[k], cuttings[k])
    ensures r.ChunkTooLarge? <==> exists k :: 0 <= k < |sections| && SectionTooWide(s, sections[k])
    // The drafts of section k begin at starts[k]: one for each of its chunks, in order and with its text.
    ensures |starts| == |sections| + 1 && starts[0] == 0
    ensures forall k :: 0 <= k < |sections| ==> starts[k + 1] == starts[k] + |perSection[k]|
    ensures r.Success? ==> |r.value| == starts[|sections|]
    ensures r.Success? ==> forall k :: 0 <= k < |sections| ==> DraftsStandAt(r.value, starts[k], perSection[k], k)
    ensures r.Success? ==> forall i :: 0 <= i < |r.value| ==>
              var d := r.value[i];
              && d.ordinal == i && d.tokenCount == |Tokens(d.text)| && d.characterCount == |d.text|
              && 0 < d.tokenCount <= s.maximum
  {
    hide Tokens, CutsSection, SectionTooWide, Numbered, Strip, Starting, DraftsStandAt;
    perSection, cuttings, starts := [], [], [0];
    var rawChunks: seq<RawChunk> := [];
    NumberNone();
    var k := 0;
    while k < |sections|
      invariant 0 <= k <= |sections| && |perSection| == k && |cuttings| == k
      invariant rawChunks == Numbered(perSection)
      invariant Starting(rawChunks, perSection, starts)
      invariant forall j :: 0 <= j < k ==> CutsSection(s, sections[j], perSection[j], cuttings[j])
    {
      var packed, c := ChunkSection(s, sections[k]);
      NumberOne(perSection, packed);
      StartingOne(rawChunks, perSection, starts, packed);
      starts := starts + [|rawChunks| + |packed|];
      rawChunks := rawChunks + InSection(packed, k);
      perSection, cuttings := perSection + [packed], cuttings + [c];
      k := k + 1;
    }
    StartsAre(rawChunks, perSection, starts);
    var drafts: seq<Draft> := [];
    var i := 0;
    while i < |rawChunks|
      invariant 0 <= i <= |rawChunks| && |drafts| == i
      invariant forall j :: 0 <= j < i ==>
          drafts[j] == DraftOf(j, rawChunks[j]) && 0 < drafts[j].tokenCount <= s.maximum
          && drafts[j].text == rawChunks[j].chunk.text
      invariant forall j :: 0 <= j < i ==> |Tokens(rawChunks[j].chunk.text)| <= s.maximum
    {
      var raw := rawChunks[i];
      RawHasTokens(s, sections, perSection, cuttings, i);
      RawIsTrimmed(s, sections, perSection, cuttings, i);
      var normalized := Strip(raw.chunk.text);
      TokensStrip(raw.chunk.text);
      HasToken(raw.chunk.text);
      if normalized != [] {
        var tokenCount := |Tokens(normalized)|;
        if tokenCount > s.maximum {
          RawTooLarge(s, sections, perSection, cuttings, i);
          return ChunkTooLarge, perSection, cuttings, starts;
        }
        drafts := drafts + [Draft(|drafts|, raw.section, normalized, tokenCount, |normalized|, raw.chunk.hasCode)];
      }
      i := i + 1;
    }
    NoneTooLarge(s, sections, perSection, cuttings);
    assert |drafts| == |rawChunks|;
    forall k | 0 <= k < |sections| ensures DraftsStandAt(drafts, starts[k], perSection[k], k) {
      DraftsOfSection(rawChunks, perSection, starts, drafts, k);
    }
    r := Success(drafts);
  }

  /** The chunks of section k stand in the list from `start` on. */
  ghost predicate StandAt(raw: seq<RawChunk>, start: nat, packed: seq<Chunk>, k: nat) {
    && start + |packed| <= |raw|
    && forall j :: 0 <= j < |packed| ==> raw[start + j] == RawChunk(k, packed[j])
  }

  /** The raw chunks of section k begin at starts[k]. */
  ghost predicate Starting(raw: seq<RawChunk>, perSection: seq<seq<Chunk>>, starts: seq<nat>) {
    && |starts| == |perSection| + 1 && starts[0] == 0 && starts[|perSection|] == |raw|
    && (forall k :: 0 <= k < |perSection| ==> starts[k + 1] == starts[k] + |perSection[k]|)
    && forall k :: 0 <= k < |perSection| ==> StandAt(raw, starts[k], perSection[k], k)
  }

  lemma StartingOne(raw: seq<RawChunk>, perSection: seq<seq<Chunk>>, starts: seq<nat>, packed: seq<Chunk>)
    requires Starting(raw, perSection, starts)
    ensures Starting(raw + InSection(packed, |perSection|), perSection + [packed], starts + [|raw| + |packed|])
  {
    var n, t := |perSection|, starts + [|raw| + |packed|];
    var all, more := perSection + [packed], raw + InSection(packed, n);
    forall k | 0 <= k < |all| ensures StandAt(more, t[k], all[k], k) && t[k + 1] == t[k] + |all[k]| {
      if k < n {
        assert StandAt(raw, starts[k], perSection[k], k);
        assert starts[k + 1] == starts[k] + |perSection[k]|;
      }
    }
  }

  lemma DraftsOfSection(raw: seq<RawChunk>, perSection: seq<seq<Chunk>>, starts: seq<nat>, drafts: seq<Draft>, k: nat)
    requires Starting(raw, perSection, starts) && |drafts| == |raw| && k < |perSection|
    requires forall i :: 0 <= i < |raw| ==> drafts[i] == DraftOf(i, raw[i]) && drafts[i].text == raw[i].chunk.text
    ensures DraftsStandAt(drafts, starts[k], perSection[k], k)
  {
    hide Strip, Tokens;
    assert StandAt(raw, starts[k], perSection[k], k);
  }

  lemma StartsAre(raw: seq<RawChunk>, perSection: seq<seq<Chunk>>, starts: seq<nat>)
    requires Starting(raw, perSection, starts)
    ensures |starts| == |perSection| + 1 && starts[0] == 0 && starts[|perSection|] == |raw|
    ensures forall k :: 0 <= k < |perSection| ==> starts[k + 1] == starts[k] + |perSection[k]|
  {
  }

  lemma NumberNone()
    ensures Numbered([]) == []
    ensures Starting([], [], [0])
  {
  }

  lemma NumberOne(perSection: seq<seq<Chunk>>, packed: seq<Chunk>)
    ensures Numbered(perSection + [packed]) == Numbered(perSection) + InSection(packed, |perSection|)
  {
    assert (perSection + [packed])[..|perSection|] == perSection;
  }

  /** Every raw chunk is a chunk of its section. */
  lemma {:induction false} RawIsIn(perSection: seq<seq<Chunk>>, i: nat) returns (j: nat)
    requires i < |Numbered(perSection)|
    ensures Numbered(perSection)[i].section < |perSection|
    ensures j < |perSection[Numbered(perSection)[i].section]|
    ensures Numbered(perSection)[i].chunk == perSection[Numbered(perSection)[i].section][j]
  {
    var n := |perSection| - 1;
    if i < |Numbered(perSection[..n])| {
      j := RawIsIn(perSection[..n], i);
    } else {
      j := i - |Numbered(perSection[..n])|;
    }
  }

  /** Every chunk of a section is among the raw chunks. */
  lemma {:induction false} IsRaw(perSection: seq<seq<Chunk>>, k: nat, j: nat) returns (i: nat)
    requires k < |perSection| && j < |perSection[k]|
    ensures i < |Numbered(perSection)| && Numbered(perSection)[i].chunk == perSection[k][j]
  {
    var n := |perSection| - 1;
    if k < n {
      i := IsRaw(perSection[..n], k, j);
    } else {
      i := |Numbered(perSection[..n])| + j;
    }
  }

  ghost predicate AllCut(s: Settings, sections: seq<Str>, perSection: seq<seq<Chunk>>, cuttings: seq<Cutting>) {
    && |perSection| == |sections| && |cuttings| == |sections|
    && forall k :: 0 <= k < |sections| ==> CutsSection(s, sections[k], perSection[k], cuttings[k])
  }

  lemma RawHasTokens(s: Settings, sections: seq<Str>, perSection: seq<seq<Chunk>>, cuttings: seq<Cutting>, i: nat)
    requires AllCut(s, sections, perSection, cuttings) && i < |Numbered(perSection)|
    ensures Tokens(Numbered(perSection)[i].chunk.text) != []
  {
    hide Tokens, CutsSection, SectionTooWide, Numbered;
    var j := RawIsIn(perSection, i);
    var k := Numbered(perSection)[i].section;
    TooLargeIff(s, sections[k], perSection[k], cuttings[k]);
  }

  lemma RawIsTrimmed(s: Settings, sections: seq<Str>, perSection: seq<seq<Chunk>>, cuttings: seq<Cutting>, i: nat)
    requires AllCut(s, sections, perSection, cuttings) && i < |Numbered(perSection)|
    ensures Strip(Numbered(perSection)[i].chunk.text) == Numbered(perSection)[i].chunk.text
  {
    hide Tokens, CutsSection, SectionTooWide, Numbered, Strip, Trimmed, Parted, LinesOfParts;
    var j := RawIsIn(perSection, i);
    var k := Numbered(perSection)[i].section;
    ChunkLines(s, sections[k], perSection[k], cuttings[k], j);
    TrimmedEndsInside(perSection[k][j].text);
  }

  lemma RawTooLarge(s: Settings, sections: seq<Str>, perSection: seq<seq<Chunk>>, cuttings: seq<Cutting>, i: nat)
    requires AllCut(s, sections, perSection, cuttings) && i < |Numbered(perSection)|
    requires |Tokens(Numbered(perSection)[i].chunk.text)| > s.maximum
    ensures exists k :: 0 <= k < |sections| && SectionTooWide(s, sections[k])
  {
    hide Tokens, CutsSection, SectionTooWide, Numbered;
    var j := RawIsIn(perSection, i);
    var k := Numbered(perSection)[i].section;
    TooLargeIff(s, sections[k], perSection[k], cuttings[k]);
    assert SectionTooWide(s, sections[k]);
  }

  lemma NoneTooLarge(s: Settings, sections: seq<Str>, perSection: seq<seq<Chunk>>, cuttings: seq<Cutting>)
    requires AllCut(s, sections, perSection, cuttings)
    requires forall i :: 0 <= i < |Numbered(perSection)| ==> |Tokens(Numbered(perSection)[i].chunk.text)| <= s.maximum
    ensures forall k :: 0 <= k < |sections| ==> !SectionTooWide(s, sections[k])
  {
    hide Tokens, CutsSection, SectionTooWide, Numbered;
    forall k | 0 <= k < |sections| ensures !SectionTooWide(s, sections[k]) {
      TooLargeIff(s, sections[k], perSection[k], cuttings[k]);
      if SectionTooWide(s, sections[k]) {
        var j :| 0 <= j < |perSection[k]| && |Tokens(perSection[k][j].text)| > s.maximum;
        var i := IsRaw(perSection, k, j);
      }
    }
  }
}
