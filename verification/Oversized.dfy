/** _split_code_block and _split_oversized: what every part of a large block carries. */
module Oversized {
  import opened Common
  import opened Text
  import opened TokenCounter
  import opened Markdown
  import opened CodeSplit

  ghost function TokenCount(block: Block): nat { |Tokens(block.text)| }

  /** The block exceeds the limit and is cut by lines inside its fence. */
  ghost predicate SplitByLines(block: Block, maximum: nat) {
    TokenCount(block) > maximum && block.hasCode && ReadFence(block.text).Some?
  }

  /** The fence alone leaves no room: some part of the block stays above the limit. */
  ghost predicate TooWide(block: Block, maximum: nat) {
    && SplitByLines(block, maximum)
    && var f := ReadFence(block.text).value;
       || (Overhead(f) > maximum && f.body != [])
       || (Overhead(f) == maximum && Tokens(f.body) != [])
  }

  /** The bound on chunk sizes is not unconditional: three backticks around one word, with a limit of
      six tokens, leave no room for the word. */
  lemma TooWideExample()
    ensures TooWide(Block(Rewrap(Fenced([Tick, Tick, Tick], [], [Word(120)], true), [Word(120)]), true, None), 6)
  {
    hide Tokens, ReadFence, Rewrap;
    var f := Fenced([Tick, Tick, Tick], [], [Word(120)], true);
    ReadBareFence([Word(120)]);
    ThreeTicks();
    WordToken(120);
    RewrapTokens(f, [Word(120)]);
    assert f.Open() == f.fence;
  }

  lemma ReadBareFence(body: Str)
    ensures var f := Fenced([Tick, Tick, Tick], [], body, true);
            ReadFence(Rewrap(f, body)) == Some(f)
  {
    hide TickRun, LanguageRun;
    var fence: Str := [Tick, Tick, Tick];
    var rest := body + ([LF] + fence);
    var text := Rewrap(Fenced(fence, [], body, true), body);
    BareFence(rest);
    assert text == fence + ([LF] + rest) && text[3..] == [LF] + rest;
    assert text[..3] == fence && text[3..3 + 0] == [] && text[3 + 0 + 1..] == rest;
    assert rest[|rest| - 4..] == [LF] + fence && rest[..|rest| - 4] == body;
  }

  lemma BareFence(rest: Str)
    ensures TickRun([Tick, Tick, Tick] + ([LF] + rest)) == 3 && LanguageRun([LF] + rest) == 0
  {
    var s := [LF] + rest;
    assert TickRun(s) == 0;
    assert ([Tick] + s)[1..] == s;
    assert TickRun([Tick] + s) == 1;
    assert ([Tick, Tick] + s)[1..] == [Tick] + s;
    assert TickRun([Tick, Tick] + s) == 2;
    assert ([Tick, Tick, Tick] + s)[1..] == [Tick, Tick] + s;
  }

  lemma ThreeTicks()
    ensures |Tokens([Tick, Tick, Tick])| == 3
  {
    assert [Tick, Tick, Tick][1..] == [Tick, Tick];
    assert [Tick, Tick][1..] == [Tick];
    assert [Tick][1..] == [];
    assert |Tokens([Tick])| == 1;
    assert |Tokens([Tick, Tick])| == 2;
  }

  lemma WordToken(code: nat)
    ensures |Tokens([Word(code)])| == 1
  {
    assert WordLen([Word(code)][1..]) == 0;
    assert WordLen([Word(code)]) == 1;
    assert [Word(code)][1..] == [];
    assert Tokens([]) == [];
  }

  /** A fence above the limit around nothing: there is no line to put into a part. */
  ghost predicate Vanishes(block: Block, maximum: nat) {
    SplitByLines(block, maximum) && ReadFence(block.text).value.body == []
  }

  /** Three backticks around nothing, with a limit of five tokens, disappear. */
  lemma VanishesExample()
    ensures Vanishes(Block(Rewrap(Fenced([Tick, Tick, Tick], [], [], true), []), true, None), 5)
  {
    hide Tokens, ReadFence, Rewrap;
    var f := Fenced([Tick, Tick, Tick], [], [], true);
    ReadBareFence([]);
    ThreeTicks();
    RewrapTokens(f, []);
    assert f.Open() == f.fence;
  }

  /** `part` holds the tokens `kept` of `source`, and beyond them at most a repeated fence, which only
      a block cut by lines has. */
  ghost predicate Carries(part: Block, kept: seq<Str>, source: Block, maximum: nat) {
    && part.hasCode == source.hasCode
    && var all := Tokens(part.text);
       || all == kept
       || (SplitByLines(source, maximum)
           && var f := ReadFence(source.text).value;
              || all == Tokens(f.Open()) + kept
              || all == kept + Tokens(f.fence)
              || all == Tokens(f.Open()) + kept + Tokens(f.fence))
  }

  // ---------- the tokens that the parts of a fenced block keep ----------

  /** The first part keeps the opening fence, the last one the closing fence if there was one. */
  ghost function Kept(f: Fenced, groups: seq<seq<Str>>, i: nat): seq<Str>
    requires i < |groups|
  {
    (if i == 0 then Tokens(f.Open()) else []) + AllTokens(groups[i])
    + (if i == |groups| - 1 && f.closed then Tokens(f.fence) else [])
  }

  ghost function AllKept(f: Fenced, groups: seq<seq<Str>>): (r: seq<seq<Str>>)
    ensures |r| == |groups| && forall i :: 0 <= i < |r| ==> r[i] == Kept(f, groups, i)
  {
    seq(|groups|, i requires 0 <= i < |groups| => Kept(f, groups, i))
  }

  /** All that the first `n` parts keep. */
  lemma {:induction false} FlatKept(f: Fenced, groups: seq<seq<Str>>, n: nat)
    requires 0 < n <= |groups|
    ensures Flat(AllKept(f, groups)[..n]) ==
            Tokens(f.Open()) + AllTokens(Flat(groups[..n]))
            + (if n == |groups| && f.closed then Tokens(f.fence) else [])
  {
    hide Tokens, AllTokens, Flat;
    var kept := AllKept(f, groups);
    assert kept[..n] == kept[..n - 1] + [kept[n - 1]];
    assert groups[..n] == groups[..n - 1] + [groups[n - 1]];
    FlatSnoc(kept[..n - 1], kept[n - 1]);
    FlatSnoc(groups[..n - 1], groups[n - 1]);
    AllTokensConcat(Flat(groups[..n - 1]), groups[n - 1]);
    if n > 1 {
      FlatKept(f, groups, n - 1);
    } else {
      FlatOfNone();
      AllTokensNone();
      assert kept[..0] == [] && groups[..0] == [];
    }
  }

  lemma FlatOfNone()
    ensures Flat<Str>([]) == [] && Flat<seq<Str>>([]) == []
  {
  }

  lemma KeepsSource(f: Fenced, groups: seq<seq<Str>>)
    requires groups != [] && AllTokens(Flat(groups)) == Tokens(f.body)
    ensures Flat(AllKept(f, groups)) == Tokens(f.Source())
  {
    hide *;
    FlatKept(f, groups, |groups|);
    assert groups[..|groups|] == groups;
    assert AllKept(f, groups)[..|groups|] == AllKept(f, groups);
    RewrapTokens(f, f.body);
  }

  lemma RewrappedCarries(source: Block, maximum: nat, f: Fenced, groups: seq<seq<Str>>, i: nat, part: Block)
    requires SplitByLines(source, maximum) && ReadFence(source.text) == Some(f) && i < |groups|
    requires part.hasCode && part.text == Rewrap(f, Join(groups[i], [LF]))
    ensures Carries(part, Kept(f, groups, i), source, maximum)
    ensures TokenCount(part) == Overhead(f) + Size(groups[i])
  {
    hide Tokens, AllTokens, ReadFence;
    RewrapTokens(f, Join(groups[i], [LF]));
    TokensJoin(groups[i], [LF]);
    var open, inner, close := Tokens(f.Open()), AllTokens(groups[i]), Tokens(f.fence);
    assert open + inner + close == open + (inner + close);
    assert [] + inner + [] == inner && open + inner + [] == open + inner && [] + inner + close == inner + close;
  }

  // ---------- sizes ----------

  lemma {:induction false} SomeGroupHasTokens(groups: seq<seq<Str>>) returns (i: nat)
    requires AllTokens(Flat(groups)) != []
    ensures i < |groups| && Size(groups[i]) > 0
  {
    if groups == [] {
      AllTokensNone();
      FlatOfNone();
    } else {
      var front := groups[..|groups| - 1];
      AllTokensConcat(Flat(front), groups[|groups| - 1]);
      if Size(groups[|groups| - 1]) > 0 {
        i := |groups| - 1;
      } else {
        i := SomeGroupHasTokens(front);
      }
    }
  }

  /** A part stays above the limit exactly when the fence leaves no room for what the code holds. */
  lemma PartsTooLarge(f: Fenced, groups: seq<seq<Str>>, maximum: nat)
    requires maximum >= 1 && Grouped(groups, [], Lines(f.body), Capacity(f, maximum))
    ensures (exists i :: 0 <= i < |groups| && Overhead(f) + Size(groups[i]) > maximum)
            <==> ((Overhead(f) > maximum && f.body != []) || (Overhead(f) == maximum && Tokens(f.body) != []))
    ensures groups == [] <==> f.body == []
    ensures AllTokens(Flat(groups)) == Tokens(f.body)
  {
    hide Tokens, Overhead;
    TokensLines(f.body);
    assert Flat(groups) + [] == Flat(groups);
    if f.body == [] {
      if groups != [] {
        assert Lines(f.body) == [];
        FlatNonEmpty(groups);
      }
    } else if Overhead(f) > maximum {
      assert Overhead(f) + Size(groups[0]) > maximum;
    } else if Overhead(f) == maximum && Tokens(f.body) != [] {
      var i := SomeGroupHasTokens(groups);
      assert Overhead(f) + Size(groups[i]) > maximum;
    } else if Overhead(f) == maximum {
      forall i | 0 <= i < |groups| ensures Size(groups[i]) == 0 {
        PartOfNothing(groups, i);
      }
    }
    if f.body == [] { TokensOfNothing(); }
  }

  lemma {:induction false} FlatNonEmpty(groups: seq<seq<Str>>)
    requires groups != [] && forall i :: 0 <= i < |groups| ==> groups[i] != []
    ensures Flat(groups) != []
  {
  }

  lemma {:induction false} PartOfNothing(groups: seq<seq<Str>>, i: nat)
    requires i < |groups|
    ensures Size(groups[i]) <= |AllTokens(Flat(groups))|
  {
    var front := groups[..|groups| - 1];
    AllTokensConcat(Flat(front), groups[|groups| - 1]);
    if i < |groups| - 1 {
      PartOfNothing(front, i);
    }
  }

  // ---------- the text of the parts ----------

  /** The parts as they are written. A block that fits is its only part. Text, and code without a fence line, is cut
      into stretches of it; a fenced block into runs of its lines, each between the opening line and the fence. */
  ghost predicate AsWritten(block: Block, maximum: nat, parts: seq<Block>) {
    && (TokenCount(block) <= maximum ==> parts == [block])
    && (TokenCount(block) > maximum && !SplitByLines(block, maximum) ==>
          forall i :: 0 <= i < |parts| ==> IsStretch(block.text, parts[i].text))
    && (SplitByLines(block, maximum) ==>
          exists groups, cuts ::
            LinesInFence(ReadFence(block.text).value, maximum, parts, groups, cuts))
    && (forall i :: 0 <= i < |parts| ==>
          && parts[i].hasCode == block.hasCode
          && (parts == [block] || parts[i].language == if block.hasCode then block.language else None)
          && (parts == [block] || parts[i].text == [] || parts[i].text[|parts[i].text| - 1] != LF))
  }

  /** The groups have room for what the limit leaves beside two fence lines, one token at least, and a group is
      closed only when it is full. */
  ghost predicate LinesInFence(f: Fenced, maximum: nat, parts: seq<Block>, groups: seq<seq<Str>>,
                               cuts: seq<seq<Str>>) {
    var room := maximum - |Tokens(f.fence + f.info + [LF, LF] + f.fence)|;
    var capacity := if room >= 1 then room else 1;
    && |groups| == |parts| && CutLines(Lines(f.body), cuts, capacity) && Flat(groups) == Flat(cuts)
    && Fit(groups, capacity) && (exists whole :: Crowded(groups, [], whole, Lines(f.body), capacity))
    && forall i :: 0 <= i < |parts| ==> Lines(parts[i].text) == [f.fence + f.info] + groups[i] + [f.fence]
  }

  lemma CapacityIs(f: Fenced, maximum: nat)
    ensures var room := maximum - |Tokens(f.fence + f.info + [LF, LF] + f.fence)|;
            Capacity(f, maximum) == if room >= 1 then room else 1
  {
    hide Tokens;
  }

  lemma StretchEnds(value: Str, part: Str)
    requires IsStretch(value, part)
    ensures part == [] || part[|part| - 1] != LF
  {
    hide Begins, Ends, Strip;
    var i, j :| 0 <= i <= j <= |value| && Begins(value, i) && Ends(value, j) && part == Strip(value[i..j]);
    StripEnds(value[i..j]);
  }

  lemma StripEnds(s: Str)
    ensures Strip(s) == [] || Strip(s)[|Strip(s)| - 1] != LF
  {
  }

  lemma WrittenByTokens(block: Block, maximum: nat, texts: seq<Str>, parts: seq<Block>)
    requires TokenCount(block) > maximum && !SplitByLines(block, maximum)
    requires forall p :: 0 <= p < |texts| ==> IsStretch(block.text, texts[p])
    requires parts == Blocks(texts, block.hasCode, if block.hasCode then block.language else None)
    ensures AsWritten(block, maximum, parts)
  {
    hide IsStretch, ReadFence;
    forall i | 0 <= i < |parts| ensures parts[i].text == [] || parts[i].text[|parts[i].text| - 1] != LF {
      StretchEnds(block.text, texts[i]);
    }
  }

  lemma WrittenByLines(block: Block, maximum: nat, groups: seq<seq<Str>>, cuts: seq<seq<Str>>, parts: seq<Block>)
    requires SplitByLines(block, maximum) && |parts| == |groups|
    requires var f := ReadFence(block.text).value;
             && CutLines(Lines(f.body), cuts, Capacity(f, maximum)) && Flat(groups) == Flat(cuts)
             && Fit(groups, Capacity(f, maximum))
             && (exists whole :: Crowded(groups, [], whole, Lines(f.body), Capacity(f, maximum)))
             && forall i :: 0 <= i < |parts| ==>
                  parts[i] == Block(Rewrap(f, Join(groups[i], [LF])), true, block.language)
    ensures AsWritten(block, maximum, parts)
  {
    hide ReadFence, IsStretch, Lines, Flat, Capacity, Join, Rewrap, CutLines, Crowded, Size, Tokens;
    var f := ReadFence(block.text).value;
    CapacityIs(f, maximum);
    FenceIsOneLine(block.text);
    CutsAreOneLiners(Lines(f.body), cuts, Capacity(f, maximum));
    forall i | 0 <= i < |parts|
      ensures Lines(parts[i].text) == [f.fence + f.info] + groups[i] + [f.fence]
      ensures parts[i].text != [] && parts[i].text[|parts[i].text| - 1] != LF
    {
      FlatOfOneLiners(groups, i);
      LinesOfRewrap(f, groups[i]);
      RewrapEnds(f, Join(groups[i], [LF]));
    }
    assert LinesInFence(f, maximum, parts, groups, cuts);
  }

  lemma RewrapEnds(f: Fenced, group: Str)
    requires f.fence != [] && LF !in f.fence
    ensures var text := Rewrap(f, group); text != [] && text[|text| - 1] != LF
  {
    assert Rewrap(f, group)[|Rewrap(f, group)| - 1] == f.fence[|f.fence| - 1];
  }

  lemma {:induction false} CutsAreOneLiners(lines: seq<Str>, cuts: seq<seq<Str>>, capacity: nat)
    requires CutLines(lines, cuts, capacity) && OneLiners(lines)
    ensures OneLiners(Flat(cuts))
  {
    hide Tokens, AllTokens, IsStretch;
    if lines == [] {
      NoLinesCut(capacity);
    } else {
      var n := |lines| - 1;
      CutsAreOneLiners(lines[..n], cuts[..n], capacity);
      forall p | 0 <= p < |cuts[n]| ensures LF !in cuts[n][p] {
        if |Tokens(lines[n])| > capacity { StretchIsOneLine(lines[n], cuts[n][p]); }
      }
    }
  }

  // ---------- the two functions ----------

  function Blocks(parts: seq<Str>, hasCode: bool, language: Option<Str>): (r: seq<Block>)
    ensures |r| == |parts|
    ensures forall i :: 0 <= i < |r| ==> r[i] == Block(parts[i], hasCode, language)
  {
    seq(|parts|, i requires 0 <= i < |parts| => Block(parts[i], hasCode, language))
  }

  ghost function TokensOfEach(parts: seq<Str>): (r: seq<seq<Str>>)
    ensures |r| == |parts| && forall i :: 0 <= i < |r| ==> r[i] == Tokens(parts[i])
  {
    seq(|parts|, i requires 0 <= i < |parts| => Tokens(parts[i]))
  }

  lemma {:induction false} FlatTokensOfEach(parts: seq<Str>)
    ensures Flat(TokensOfEach(parts)) == AllTokens(parts)
  {
    hide Tokens;
    if parts != [] {
      var front := parts[..|parts| - 1];
      FlatTokensOfEach(front);
      assert TokensOfEach(parts)[..|parts| - 1] == TokensOfEach(front);
    }
  }

  /** What the parts of a block promise. */
  ghost predicate SplitOf(block: Block, maximum: nat, parts: seq<Block>, keeps: seq<seq<Str>>) {
    && |keeps| == |parts|
    && (forall i :: 0 <= i < |parts| ==> Carries(parts[i], keeps[i], block, maximum) && TokenCount(parts[i]) > 0)
    && Flat(keeps) == (if Vanishes(block, maximum) then [] else Tokens(block.text))
    && ((exists i :: 0 <= i < |parts| && TokenCount(parts[i]) > maximum) <==> TooWide(block, maximum))
  }

  lemma PlainSplit(block: Block, maximum: nat, texts: seq<Str>, parts: seq<Block>)
    requires !SplitByLines(block, maximum)
    requires AllTokens(texts) == Tokens(block.text)
    requires forall p :: 0 <= p < |texts| ==> 0 < |Tokens(texts[p])| <= maximum
    requires |parts| == |texts|
    requires forall i :: 0 <= i < |parts| ==> parts[i].text == texts[i] && parts[i].hasCode == block.hasCode
    ensures SplitOf(block, maximum, parts, TokensOfEach(texts))
  {
    hide Tokens, AllTokens, Flat, ReadFence;
    FlatTokensOfEach(texts);
    forall i | 0 <= i < |parts| ensures TokenCount(parts[i]) <= maximum {
      assert parts[i].text == texts[i];
    }
  }

  lemma FencedSplit(block: Block, f: Fenced, maximum: nat, groups: seq<seq<Str>>, parts: seq<Block>)
    requires maximum >= 1 && SplitByLines(block, maximum) && ReadFence(block.text) == Some(f)
    requires Grouped(groups, [], Lines(f.body), Capacity(f, maximum))
    requires |parts| == |groups|
    requires forall i :: 0 <= i < |parts| ==> parts[i].text == Rewrap(f, Join(groups[i], [LF])) && parts[i].hasCode
    ensures SplitOf(block, maximum, parts, AllKept(f, groups))
  {
    hide Tokens, AllTokens, Flat, ReadFence, Grouped, Lines, Capacity, Overhead, Carries;
    PartsTooLarge(f, groups, maximum);
    FenceReadBack(block.text);
    forall i | 0 <= i < |parts|
      ensures TokenCount(parts[i]) == Overhead(f) + Size(groups[i])
      ensures Carries(parts[i], AllKept(f, groups)[i], block, maximum) && TokenCount(parts[i]) > 0
    {
      RewrappedCarries(block, maximum, f, groups, i, parts[i]);
      OverheadPositive(block.text);
    }
    if groups == [] {
      FlatOfNone();
    } else {
      KeepsSource(f, groups);
    }
    if i :| 0 <= i < |parts| && TokenCount(parts[i]) > maximum {
      assert Overhead(f) + Size(groups[i]) > maximum;
    }
    if i :| 0 <= i < |groups| && Overhead(f) + Size(groups[i]) > maximum {
      assert TokenCount(parts[i]) > maximum;
    }
  }

  lemma OverheadPositive(text: Str)
    requires ReadFence(text).Some?
    ensures Overhead(ReadFence(text).value) > 0
  {
    hide LanguageRun, TickRun;
    FenceIsTicks(text);
    var f := ReadFence(text).value;
    assert (f.fence + f.info + [LF, LF] + f.fence)[0] == Tick;
  }

  /** _split_code_block */
  method SplitCodeBlock(block: Block, maximum: nat) returns (parts: seq<Block>, ghost keeps: seq<seq<Str>>)
    requires maximum >= 1 && block.hasCode && TokenCount(block) > maximum
    ensures SplitOf(block, maximum, parts, keeps)
    ensures exists k :: SplitOf(block, maximum, parts, k)
    ensures AsWritten(block, maximum, parts)
  {
    hide *;
    var read := ReadFence(block.text);
    if read.None? {
      var texts := Split(block.text, maximum);
      parts := Blocks(texts, true, block.language);
      keeps := TokensOfEach(texts);
      PlainSplitCode(block, maximum, texts, parts);
      NotByFence(block, maximum);
      WrittenByTokens(block, maximum, texts, parts);
      return;
    }
    var f := read.value;
    var capacity := Capacity(f, maximum);
    CapacityPositive(f, maximum);
    var groups, cuts := GroupLines(Lines(f.body), capacity);
    parts := seq(|groups|, i requires 0 <= i < |groups| =>
      Block(Rewrap(f, Join(groups[i], [LF])), true, block.language));
    keeps := AllKept(f, groups);
    CutByLines(block, maximum);
    FencedSplit(block, f, maximum, groups, parts);
    GroupsAreFull(groups, Lines(f.body), capacity);
    WrittenByLines(block, maximum, groups, cuts, parts);
  }

  lemma GroupsAreFull(groups: seq<seq<Str>>, lines: seq<Str>, capacity: nat)
    requires Grouped(groups, [], lines, capacity)
    ensures Fit(groups, capacity)
  {
  }

  lemma NotByFence(block: Block, maximum: nat)
    requires ReadFence(block.text).None? || !block.hasCode
    ensures !SplitByLines(block, maximum)
  {
  }

  lemma CutByLines(block: Block, maximum: nat)
    requires block.hasCode && TokenCount(block) > maximum && ReadFence(block.text).Some?
    ensures SplitByLines(block, maximum)
  {
  }

  lemma PlainSplitCode(block: Block, maximum: nat, texts: seq<Str>, parts: seq<Block>)
    requires ReadFence(block.text).None? && block.hasCode
    requires AllTokens(texts) == Tokens(block.text)
    requires forall p :: 0 <= p < |texts| ==> 0 < |Tokens(texts[p])| <= maximum
    requires parts == Blocks(texts, true, block.language)
    ensures SplitOf(block, maximum, parts, TokensOfEach(texts))
  {
    hide Tokens, AllTokens, ReadFence, SplitOf;
    PlainSplit(block, maximum, texts, parts);
  }

  lemma CapacityPositive(f: Fenced, maximum: nat)
    ensures Capacity(f, maximum) >= 1
  {
  }

  /** _split_oversized: a block that fits stays whole. */
  method SplitOversized(block: Block, maximum: nat) returns (parts: seq<Block>, ghost keeps: seq<seq<Str>>)
    requires maximum >= 1 && TokenCount(block) > 0
    ensures SplitOf(block, maximum, parts, keeps)
    ensures TokenCount(block) <= maximum ==> parts == [block]
    ensures AsWritten(block, maximum, parts)
  {
    hide Tokens, AllTokens, SplitOf, ReadFence;
    if |Tokens(block.text)| <= maximum {
      parts := [block];
      keeps := [Tokens(block.text)];
      WholeBlock(block, maximum);
    } else if !block.hasCode {
      var texts := Split(block.text, maximum);
      parts := Blocks(texts, false, None);
      keeps := TokensOfEach(texts);
      PlainSplitText(block, maximum, texts, parts);
      NotByFence(block, maximum);
      WrittenByTokens(block, maximum, texts, parts);
    } else {
      CountIs(block);
      parts, keeps := SplitCodeBlock(block, maximum);
    }
  }

  lemma CountIs(block: Block)
    ensures TokenCount(block) == |Tokens(block.text)|
  {
  }

  lemma WholeBlock(block: Block, maximum: nat)
    requires 0 < |Tokens(block.text)| <= maximum
    ensures SplitOf(block, maximum, [block], [Tokens(block.text)])
    ensures AsWritten(block, maximum, [block])
    ensures TokenCount(block) <= maximum
  {
    hide Tokens, ReadFence;
    FlatSnoc([], Tokens(block.text));
    assert [] + [Tokens(block.text)] == [Tokens(block.text)];
  }

  lemma PlainSplitText(block: Block, maximum: nat, texts: seq<Str>, parts: seq<Block>)
    requires !block.hasCode && |Tokens(block.text)| > maximum
    requires AllTokens(texts) == Tokens(block.text)
    requires forall p :: 0 <= p < |texts| ==> 0 < |Tokens(texts[p])| <= maximum
    requires parts == Blocks(texts, false, None)
    ensures SplitOf(block, maximum, parts, TokensOfEach(texts))
    ensures TokenCount(block) > maximum
  {
    hide Tokens, AllTokens, ReadFence, SplitOf;
    PlainSplit(block, maximum, texts, parts);
  }
}
