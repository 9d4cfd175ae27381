/** The context of an answer: ranked passages without repetitions, one source per document, within a budget
    of tokens. */
module ContextBuilder {
  import opened ContextText
  import opened Sorting

  datatype Source = Source(citation: nat, best: Passage, passage: string)

  datatype Context = Context(text: string, sources: seq<Source>, tokenCount: nat)

  function BlockOf(s: Source): string {
    Block(s.citation, s.best, s.passage)
  }

  // ---------- selecting passages ----------

  datatype Group = Group(documentId: nat, passages: seq<Passage>)

  /** The groups by document in order of appearance, and the selected passages in the order of selection. */
  datatype Selection = Selection(groups: seq<Group>, selected: seq<Passage>)

  predicate NotAfter(a: Passage, b: Passage) {
    a.rank < b.rank || (a.rank == b.rank && a.chunkId <= b.chunkId)
  }

  function GroupIndex(groups: seq<Group>, documentId: nat): (i: nat)
    ensures i <= |groups|
    ensures i < |groups| ==> groups[i].documentId == documentId
    ensures i == |groups| ==> forall j :: 0 <= j < |groups| ==> groups[j].documentId != documentId
  {
    if groups == [] then 0
    else if groups[0].documentId == documentId then 0
    else 1 + GroupIndex(groups[1..], documentId)
  }

  /** Blank, or overlapping a passage selected before. */
  predicate Repeats(selected: seq<Passage>, p: Passage) {
    || DedupText(p.text) == ""
    || exists i :: 0 <= i < |selected| && Overlaps(DedupText(p.text), DedupText(selected[i].text))
  }

  function Considered(s: Selection, p: Passage, maxChunks: nat): Selection {
    var i := GroupIndex(s.groups, p.documentId);
    if Repeats(s.selected, p) then s
    else if i == |s.groups| then Selection(s.groups + [Group(p.documentId, [p])], s.selected + [p])
    else if |s.groups[i].passages| >= maxChunks then s
    else Selection(s.groups[i := Group(p.documentId, s.groups[i].passages + [p])], s.selected + [p])
  }

  function Selected(passages: seq<Passage>, maxChunks: nat): Selection {
    if passages == [] then Selection([], [])
    else Considered(Selected(passages[..|passages| - 1], maxChunks), passages[|passages| - 1], maxChunks)
  }

  function OfDocument(passages: seq<Passage>, documentId: nat): seq<Passage> {
    if passages == [] then []
    else
      var front, last := OfDocument(passages[..|passages| - 1], documentId), passages[|passages| - 1];
      if last.documentId == documentId then front + [last] else front
  }

  /** The groups are the selected passages by document, in the order of their best passages. */
  ghost predicate WellGrouped(s: Selection, maxChunks: nat) {
    && (forall i, j :: 0 <= i < j < |s.groups| ==> s.groups[i].documentId != s.groups[j].documentId)
    && (forall i :: 0 <= i < |s.groups| ==>
          var g := s.groups[i];
          1 <= |g.passages| <= maxChunks && g.passages == OfDocument(s.selected, g.documentId)
              && g.passages[0].documentId == g.documentId)
    && (forall p :: p in s.selected ==> exists i :: 0 <= i < |s.groups| && s.groups[i].documentId == p.documentId)
    && (forall i, j :: 0 <= i < j < |s.groups| ==> NotAfter(s.groups[i].passages[0], s.groups[j].passages[0]))
  }

  /** No two selected passages overlap and none is blank. */
  predicate WithoutRepetition(selected: seq<Passage>) {
    && (forall i :: 0 <= i < |selected| ==> DedupText(selected[i].text) != "")
    && (forall i, j :: 0 <= i < j < |selected| ==> !Overlaps(DedupText(selected[j].text), DedupText(selected[i].text)))
  }

  /** A passage is left out only when it repeats or its document already has its share. */
  ghost predicate LeavesOutOnly(passages: seq<Passage>, selected: seq<Passage>, maxChunks: nat) {
    && (forall p :: p in selected ==> p in passages)
    && (forall p :: p in passages && p !in selected ==>
          Repeats(selected, p) || |OfDocument(selected, p.documentId)| == maxChunks)
  }

  lemma OneMoreOfDocument(selected: seq<Passage>, p: Passage, documentId: nat)
    ensures OfDocument(selected + [p], documentId)
            == OfDocument(selected, documentId) + (if p.documentId == documentId then [p] else [])
  {
    assert (selected + [p])[..|selected|] == selected;
  }

  lemma {:induction false} NoneOfDocument(selected: seq<Passage>, documentId: nat)
    requires forall p :: p in selected ==> p.documentId != documentId
    ensures OfDocument(selected, documentId) == []
  {
    if selected != [] {
      NoneOfDocument(selected[..|selected| - 1], documentId);
    }
  }

  lemma ConsideredIsWellGrouped(s: Selection, p: Passage, maxChunks: nat)
    requires WellGrouped(s, maxChunks) && maxChunks >= 1
    requires forall i :: 0 <= i < |s.groups| && s.groups[i].passages != [] ==> NotAfter(s.groups[i].passages[0], p)
    ensures WellGrouped(Considered(s, p, maxChunks), maxChunks)
  {
    hide Repeats, OfDocument, NotAfter;
    var t := Considered(s, p, maxChunks);
    if t != s {
      ConsideredGroups(s, p, maxChunks);
      ConsideredDocuments(s, p, maxChunks);
    }
  }

  lemma ConsideredGroups(s: Selection, p: Passage, maxChunks: nat)
    requires WellGrouped(s, maxChunks) && maxChunks >= 1 && Considered(s, p, maxChunks) != s
    ensures var t := Considered(s, p, maxChunks);
            forall i :: 0 <= i < |t.groups| ==> t.groups[i].passages == OfDocument(t.selected, t.groups[i].documentId)
  {
    hide Repeats, OfDocument, NotAfter;
    var t, n := Considered(s, p, maxChunks), GroupIndex(s.groups, p.documentId);
    forall i | 0 <= i < |t.groups| ensures t.groups[i].passages == OfDocument(t.selected, t.groups[i].documentId) {
      OneMoreOfDocument(s.selected, p, t.groups[i].documentId);
      if n == |s.groups| && i == n {
        assert forall q :: q in s.selected ==> q.documentId != p.documentId;
        NoneOfDocument(s.selected, p.documentId);
      }
    }
  }

  lemma ConsideredDocuments(s: Selection, p: Passage, maxChunks: nat)
    requires WellGrouped(s, maxChunks) && Considered(s, p, maxChunks) != s
    ensures var t := Considered(s, p, maxChunks);
            forall q :: q in t.selected ==> exists i :: 0 <= i < |t.groups| && t.groups[i].documentId == q.documentId
  {
    hide Repeats, OfDocument, NotAfter;
    var t, n := Considered(s, p, maxChunks), GroupIndex(s.groups, p.documentId);
    forall q | q in t.selected ensures exists i :: 0 <= i < |t.groups| && t.groups[i].documentId == q.documentId {
      if q in s.selected {
        var i :| 0 <= i < |s.groups| && s.groups[i].documentId == q.documentId;
        assert t.groups[i].documentId == q.documentId;
      } else {
        assert q == p && t.groups[n].documentId == p.documentId;
      }
    }
  }

  lemma FullIsFull(s: Selection, p: Passage, maxChunks: nat)
    requires WellGrouped(s, maxChunks) && maxChunks >= 1 && |OfDocument(s.selected, p.documentId)| == maxChunks
    ensures Considered(s, p, maxChunks) == s
  {
    hide Repeats, NotAfter;
    if GroupIndex(s.groups, p.documentId) == |s.groups| {
      NoneOfDocument(s.selected, p.documentId);
    }
  }

  lemma ConsideredKeepsOut(s: Selection, p: Passage, maxChunks: nat, passages: seq<Passage>)
    requires maxChunks >= 1 && WellGrouped(s, maxChunks)
    requires WithoutRepetition(s.selected) && LeavesOutOnly(passages, s.selected, maxChunks)
    ensures var t := Considered(s, p, maxChunks);
            WithoutRepetition(t.selected) && LeavesOutOnly(passages + [p], t.selected, maxChunks)
  {
    hide DedupText, Overlaps, OfDocument;
    var t := Considered(s, p, maxChunks);
    assert s.selected <= t.selected;
    forall q | q in passages + [p] && q !in t.selected
      ensures Repeats(t.selected, q) || |OfDocument(t.selected, q.documentId)| == maxChunks
    {
      if t != s {
        assert q in passages && q !in s.selected;
        OneMoreOfDocument(s.selected, p, q.documentId);
        if Repeats(s.selected, q) {
          StillRepeats(s.selected, p, q);
        } else if p.documentId == q.documentId {
          FullIsFull(s, p, maxChunks);
        }
      }
    }
  }

  lemma StillRepeats(selected: seq<Passage>, p: Passage, q: Passage)
    requires Repeats(selected, q)
    ensures Repeats(selected + [p], q)
  {
    hide DedupText, Overlaps;
    if DedupText(q.text) != "" {
      var i :| 0 <= i < |selected| && Overlaps(DedupText(q.text), DedupText(selected[i].text));
      assert (selected + [p])[i] == selected[i];
    }
  }

  lemma {:induction false} GroupsComeFrom(passages: seq<Passage>, maxChunks: nat)
    ensures forall g :: g in Selected(passages, maxChunks).groups ==> forall p :: p in g.passages ==> p in passages
  {
    hide Repeats;
    if passages != [] {
      GroupsComeFrom(passages[..|passages| - 1], maxChunks);
      assert passages == passages[..|passages| - 1] + [passages[|passages| - 1]];
    }
  }

  lemma BestsComeBefore(s: Selection, passages: seq<Passage>, p: Passage, maxChunks: nat)
    requires WellGrouped(s, maxChunks) && Sorted(passages + [p], NotAfter)
    requires forall g :: g in s.groups ==> forall q :: q in g.passages ==> q in passages
    ensures forall i :: 0 <= i < |s.groups| && s.groups[i].passages != [] ==> NotAfter(s.groups[i].passages[0], p)
  {
    hide NotAfter, OfDocument;
    forall i | 0 <= i < |s.groups| ensures NotAfter(s.groups[i].passages[0], p) {
      assert s.groups[i] in s.groups && s.groups[i].passages[0] in s.groups[i].passages;
      var k :| 0 <= k < |passages| && passages[k] == s.groups[i].passages[0];
      assert (passages + [p])[k] == passages[k] && (passages + [p])[|passages|] == p;
    }
  }

  /** What is selected from passages in rank order. */
  lemma {:induction false} SelectionIsRight(passages: seq<Passage>, maxChunks: nat)
    requires maxChunks >= 1 && Sorted(passages, NotAfter)
    ensures var s := Selected(passages, maxChunks);
            WellGrouped(s, maxChunks) && WithoutRepetition(s.selected) && LeavesOutOnly(passages, s.selected, maxChunks)
  {
    if passages == [] {
      NothingSelected(maxChunks);
    } else {
      hide WellGrouped, WithoutRepetition, LeavesOutOnly, Considered, NotAfter;
      var front, p := passages[..|passages| - 1], passages[|passages| - 1];
      assert passages == front + [p];
      SelectionIsRight(front, maxChunks);
      GroupsComeFrom(front, maxChunks);
      var s := Selected(front, maxChunks);
      BestsComeBefore(s, front, p, maxChunks);
      ConsideredIsWellGrouped(s, p, maxChunks);
      ConsideredKeepsOut(s, p, maxChunks, front);
    }
  }

  lemma NothingSelected(maxChunks: nat)
    ensures WellGrouped(Selection([], []), maxChunks) && WithoutRepetition([]) && LeavesOutOnly([], [], maxChunks)
  {
  }

  // ---------- assembling sources ----------

  datatype Limits = Limits(budget: nat, maxSources: nat)

  datatype Assembly = Assembly(sources: seq<Source>, used: nat)

  function GroupText(g: Group): string {
    Joined(Stripped(g.passages), "\n\n")
  }

  function Stripped(passages: seq<Passage>): seq<string> {
    if passages == [] then []
    else
      var front, text := Stripped(passages[..|passages| - 1]), LStrip(RStrip(passages[|passages| - 1].text));
      if text == "" then front else front + [text]
  }

  function Added(a: Assembly, g: Group, l: Limits): Assembly
    requires g.passages != []
  {
    if |a.sources| >= l.maxSources then a
    else
      var citation, best, safe := |a.sources| + 1, g.passages[0], Escaped(GroupText(g));
      var tokens := Tokens(Block(citation, best, safe));
      if a.used + tokens <= l.budget then
        Assembly(a.sources + [Source(citation, best, safe)], a.used + tokens)
      else if l.budget - a.used < 40 then a
      else
        var shorter := Truncate(safe, (l.budget - a.used) * 4);
        Assembly(a.sources + [Source(citation, best, shorter)], a.used + Tokens(Block(citation, best, shorter)))
  }

  /** A group is left out exactly when the sources are full, or its whole block does not fit and fewer than forty
      tokens are free. Otherwise it becomes the next source, with its whole text if that fits and else with the
      text shortened to four characters for each free token. */
  lemma AddedIff(a: Assembly, g: Group, l: Limits)
    requires g.passages != []
    ensures var t, safe, citation := Added(a, g, l), Escaped(GroupText(g)), |a.sources| + 1;
            var fits := a.used + Tokens(Block(citation, g.passages[0], safe)) <= l.budget;
            && (t == a <==> |a.sources| >= l.maxSources || (!fits && l.budget - a.used < 40))
            && (t != a ==>
                  && |t.sources| == citation && t.sources[..citation - 1] == a.sources
                  && t.sources[citation - 1]
                     == Source(citation, g.passages[0], if fits then safe else Truncate(safe, 4 * (l.budget - a.used)))
                  && t.used == a.used + Tokens(Block(citation, g.passages[0], t.sources[citation - 1].passage)))
  {
    hide Block, Escaped, GroupText, Truncate;
  }

  lemma {:induction false} BlankHasNoWords(s: string)
    requires forall k :: 0 <= k < |s| ==> IsSpace(s[k])
    ensures Words(s) == []
  {
    if s != [] { BlankHasNoWords(s[..|s| - 1]); }
  }

  /** The text without the white space at its ends. */
  ghost predicate IsStripped(text: string, whole: string) {
    exists i, j :: 0 <= i < j <= |whole| && text == whole[i..j] && !IsSpace(whole[i]) && !IsSpace(whole[j - 1])
                   && forall k :: 0 <= k < i || j <= k < |whole| ==> IsSpace(whole[k])
  }

  lemma StripOfText(s: string)
    requires DedupText(s) != ""
    ensures LStrip(RStrip(s)) != "" && IsStripped(LStrip(RStrip(s)), s)
  {
    hide LStrip, RStrip;
    var i, j := StripIsSlice(s);
    if i == j { BlankHasNoWords(s); }
  }

  lemma {:induction false} StrippedAre(passages: seq<Passage>)
    requires forall k :: 0 <= k < |passages| ==> DedupText(passages[k].text) != ""
    ensures |Stripped(passages)| == |passages|
    ensures forall k :: 0 <= k < |passages| ==> IsStripped(Stripped(passages)[k], passages[k].text)
  {
    hide DedupText, IsStripped, LStrip, RStrip;
    if passages != [] {
      StrippedAre(passages[..|passages| - 1]);
      StripOfText(passages[|passages| - 1].text);
    }
  }

  /** The text of a group of selected passages: their texts without white space at the ends, with one empty line
      between two of them. */
  lemma GroupTextIs(g: Group)
    requires forall k :: 0 <= k < |g.passages| ==> DedupText(g.passages[k].text) != ""
    ensures |Stripped(g.passages)| == |g.passages| && Separated(GroupText(g), Stripped(g.passages), "\n\n")
    ensures forall k :: 0 <= k < |g.passages| ==> IsStripped(Stripped(g.passages)[k], g.passages[k].text)
  {
    hide DedupText, IsStripped;
    StrippedAre(g.passages);
    JoinedIsSeparated(Stripped(g.passages), "\n\n");
  }

  predicate NonEmpty(groups: seq<Group>) {
    forall i :: 0 <= i < |groups| ==> groups[i].passages != []
  }

  function Assembled(a: Assembly, groups: seq<Group>, l: Limits): Assembly
    requires NonEmpty(groups)
  {
    if groups == [] then a
    else Added(Assembled(a, groups[..|groups| - 1], l), groups[|groups| - 1], l)
  }

  function UsedBy(sources: seq<Source>): nat {
    if sources == [] then 0
    else UsedBy(sources[..|sources| - 1]) + Tokens(BlockOf(sources[|sources| - 1]))
  }

  /** The tokens a block can have beyond its text: what is around it and the truncation suffix. */
  function Overrun(s: Source): nat {
    (|Block(s.citation, s.best, "")| + |SHORTENED| + 3) / 4
  }

  /** Citations count from one; the count of tokens is exact; the budget is kept except by the overrun of
      a last source that was shortened. */
  ghost predicate WithinLimits(a: Assembly, l: Limits) {
    && |a.sources| <= l.maxSources
    && (forall i :: 0 <= i < |a.sources| ==> a.sources[i].citation == i + 1 && Unmarked(a.sources[i].passage))
    && a.used == UsedBy(a.sources)
    && (a.used <= l.budget || (a.sources != [] && a.used <= l.budget + Overrun(a.sources[|a.sources| - 1])))
  }

  lemma OneMoreSource(sources: seq<Source>, s: Source)
    ensures UsedBy(sources + [s]) == UsedBy(sources) + Tokens(BlockOf(s))
  {
    assert (sources + [s])[..|sources|] == sources;
  }

  lemma ShortenedTokens(citation: nat, best: Passage, safe: string, remaining: nat)
    requires |safe| <= remaining * 4 + |SHORTENED|
    ensures Tokens(Block(citation, best, safe)) <= remaining + Overrun(Source(citation, best, safe))
  {
    hide Header;
  }

  lemma AddedWithinLimits(a: Assembly, g: Group, l: Limits)
    requires WithinLimits(a, l) && g.passages != []
    ensures WithinLimits(Added(a, g, l), l)
  {
    hide Block, Escaped, GroupText, Truncate, Unmarked, Overrun, UsedBy;
    var t := Added(a, g, l);
    if t != a {
      var safe := Escaped(GroupText(g));
      EscapedIsUnmarked(GroupText(g));
      OneMoreSource(a.sources, t.sources[|a.sources|]);
      if a.used < l.budget {
        var remaining := l.budget - a.used;
        TruncatedIsUnmarked(safe, remaining * 4);
        var shorter := Truncate(safe, remaining * 4);
        ShortenedTokens(|a.sources| + 1, g.passages[0], shorter, remaining);
      }
    }
  }

  function FrameLength(citation: nat, best: Passage): nat {
    |Header(citation, best)| + |FOOTER|
  }

  /** The next group is shortened, and its frame, with the suffix if its text is cut, is longer than the gap
      that the cut leaves. */
  predicate Overflows(a: Assembly, g: Group, l: Limits)
    requires g.passages != []
  {
    && a.used <= l.budget - 40 && |a.sources| < l.maxSources
    && var room := 4 * (l.budget - a.used);
       var frame, safe := FrameLength(|a.sources| + 1, g.passages[0]), Escaped(GroupText(g));
       && frame + |safe| > room
       && frame + (if |safe| > room then |SHORTENED| else 0) > Gap(safe, room)
  }

  /** A step passes the budget exactly when the group overflows. */
  lemma PassesTheBudgetIff(a: Assembly, g: Group, l: Limits)
    requires g.passages != [] && a.used <= l.budget
    ensures Added(a, g, l).used > l.budget <==> Overflows(a, g, l)
  {
    hide Escaped, GroupText, CutAt, RStrip, Header;
    var citation, best, safe := |a.sources| + 1, g.passages[0], Escaped(GroupText(g));
    assert |Block(citation, best, safe)| == FrameLength(citation, best) + |safe|;
    if a.used <= l.budget {
      var shorter := Truncate(safe, (l.budget - a.used) * 4);
      assert |Block(citation, best, shorter)| == FrameLength(citation, best) + |shorter|;
    }
  }

  const NO_SOURCES := Assembly([], 0)

  /** Some group overflows what was assembled before it. */
  ghost predicate PassesBudget(groups: seq<Group>, l: Limits)
    requires NonEmpty(groups)
  {
    exists n :: 0 <= n < |groups| && Overflows(Assembled(NO_SOURCES, groups[..n], l), groups[n], l)
  }

  lemma LastGroup(groups: seq<Group>, l: Limits)
    requires NonEmpty(groups) && groups != []
    ensures var front, last := groups[..|groups| - 1], groups[|groups| - 1];
            PassesBudget(groups, l) <==> PassesBudget(front, l) || Overflows(Assembled(NO_SOURCES, front, l), last, l)
  {
    hide Overflows, Assembled;
    var last := |groups| - 1;
    var front := groups[..last];
    assert forall n :: 0 <= n <= last ==> front[..n] == groups[..n];
    if PassesBudget(front, l) {
      var n :| 0 <= n < last && Overflows(Assembled(NO_SOURCES, front[..n], l), front[n], l);
      assert Overflows(Assembled(NO_SOURCES, groups[..n], l), groups[n], l);
    }
    if PassesBudget(groups, l) {
      var n :| 0 <= n < |groups| && Overflows(Assembled(NO_SOURCES, groups[..n], l), groups[n], l);
      assert n < last ==> groups[n] == front[n];
    }
  }

  /** The whole context passes the budget exactly when some group overflows. */
  lemma {:induction false} ContextPassesTheBudgetIff(groups: seq<Group>, l: Limits)
    requires NonEmpty(groups)
    ensures Assembled(NO_SOURCES, groups, l).used > l.budget <==> PassesBudget(groups, l)
  {
    hide Added, Overflows, PassesBudget;
    if groups == [] {
      NoGroupPasses(l);
    } else {
      var front, last := groups[..|groups| - 1], groups[|groups| - 1];
      var a := Assembled(NO_SOURCES, front, l);
      ContextPassesTheBudgetIff(front, l);
      LastGroup(groups, l);
      if a.used > l.budget { OneAfterTheBudget(a, last, l); } else { PassesTheBudgetIff(a, last, l); }
    }
  }

  lemma NoGroupPasses(l: Limits)
    ensures !PassesBudget([], l)
  {
  }

  lemma OneAfterTheBudget(a: Assembly, g: Group, l: Limits)
    requires g.passages != [] && a.used >= l.budget
    ensures Added(a, g, l) == a
  {
    hide Block, Escaped, GroupText, Truncate;
  }

  /** A text that is cut at the limit itself, between a character that is not white space and the next, passes
      the budget whatever stands around it: the suffix alone is too long. */
  lemma CutAtTheLimitPasses(a: Assembly, g: Group, l: Limits)
    requires g.passages != [] && a.used <= l.budget - 40 && |a.sources| < l.maxSources
    requires var room, safe := 4 * (l.budget - a.used), Escaped(GroupText(g));
             |safe| > room && RFind(safe, room) < room / 2 && !IsSpace(safe[room - 1])
    ensures Added(a, g, l).used > l.budget
  {
    hide Escaped, GroupText, Header;
    PassesTheBudgetIff(a, g, l);
  }

  lemma {:induction false} NoNewline(s: string, end: nat)
    requires end <= |s| && '\n' !in s
    ensures RFind(s, end) == -1
  {
    if end > 0 {
      NoNewline(s, end - 1);
    }
  }

  lemma Unescaped(s: string)
    requires '[' !in s
    ensures Escaped(s) == s
  {
  }

  /** Four hundred letters without a break and room for forty tokens: the text is cut to fit the room alone. */
  lemma PassesTheBudgetExample()
    ensures var p := Passage(1, 1, "", [], "", seq(400, _ => 'a'), 1);
            Added(Assembly([], 0), Group(1, [p]), Limits(40, 5)).used > 40
  {
    hide Header, Tokens;
    var text := seq(400, _ => 'a');
    var p := Passage(1, 1, "", [], "", text, 1);
    var g, l := Group(1, [p]), Limits(40, 5);
    assert [p][..0] == [];
    assert Stripped([p]) == [text];
    Unescaped(text);
    NoNewline(text, 160);
    CutAtTheLimitPasses(Assembly([], 0), g, l);
  }

  /** Once the budget is reached or passed, no further source is appended. */
  lemma {:induction false} NothingAfterTheBudget(a: Assembly, groups: seq<Group>, l: Limits)
    requires NonEmpty(groups) && a.used >= l.budget
    ensures Assembled(a, groups, l) == a
  {
    hide Added;
    if groups != [] {
      NothingAfterTheBudget(a, groups[..|groups| - 1], l);
      OneAfterTheBudget(a, groups[|groups| - 1], l);
    }
  }

  /** Every source stands for another document, and they are in rank order. */
  ghost predicate InRankOrder(sources: seq<Source>) {
    forall i, j :: 0 <= i < j < |sources| ==>
      sources[i].best.documentId != sources[j].best.documentId && NotAfter(sources[i].best, sources[j].best)
  }

  /** The source names the group's best passage and shows its escaped text, perhaps shortened. */
  ghost predicate Shows(source: Source, g: Group) {
    && g.passages != [] && g.passages[0] == source.best
    && exists maximum: nat :: source.passage == Truncate(Escaped(GroupText(g)), maximum)
  }

  ghost predicate Drawn(sources: seq<Source>, groups: seq<Group>) {
    forall i :: 0 <= i < |sources| ==> exists k :: 0 <= k < |groups| && Shows(sources[i], groups[k])
  }

  lemma NewSourceShows(a: Assembly, g: Group, l: Limits)
    requires g.passages != [] && Added(a, g, l) != a
    ensures var t := Added(a, g, l);
            && t.sources != [] && t.sources[..|t.sources| - 1] == a.sources
            && t.sources[|t.sources| - 1].best == g.passages[0] && Shows(t.sources[|t.sources| - 1], g)
  {
    hide Block, Escaped, GroupText, Truncate;
    AddedIff(a, g, l);
    var safe := Escaped(GroupText(g));
    assert Truncate(safe, |safe|) == safe by { NotShortened(safe); }
  }

  lemma NotShortened(text: string)
    ensures Truncate(text, |text|) == text
  {
  }

  lemma {:induction false} AssembledIsRight(groups: seq<Group>, l: Limits, s: Selection, maxChunks: nat)
    requires NonEmpty(groups) && WellGrouped(s, maxChunks) && groups <= s.groups
    ensures var a := Assembled(NO_SOURCES, groups, l);
            WithinLimits(a, l) && InRankOrder(a.sources) && Drawn(a.sources, groups)
  {
    hide Added, WithinLimits, WellGrouped, InRankOrder, Drawn;
    if groups == [] {
      NoSources(l);
    } else {
      var front, n := groups[..|groups| - 1], |groups| - 1;
      AssembledIsRight(front, l, s, maxChunks);
      AddedWithinLimits(Assembled(NO_SOURCES, front, l), groups[n], l);
      AddedInOrder(Assembled(NO_SOURCES, front, l), groups, l, s, maxChunks);
    }
  }

  lemma AddedInOrder(a: Assembly, groups: seq<Group>, l: Limits, s: Selection, maxChunks: nat)
    requires NonEmpty(groups) && groups != [] && WellGrouped(s, maxChunks) && groups <= s.groups
    requires InRankOrder(a.sources) && Drawn(a.sources, groups[..|groups| - 1])
    ensures var t := Added(a, groups[|groups| - 1], l);
            InRankOrder(t.sources) && Drawn(t.sources, groups)
  {
    hide NotAfter, Added, Shows, OfDocument;
    var front, n := groups[..|groups| - 1], |groups| - 1;
    var t := Added(a, groups[n], l);
    if t != a { NewSourceShows(a, groups[n], l); }
    forall i | 0 <= i < |a.sources|
      ensures a.sources[i].best.documentId != groups[n].passages[0].documentId
              && NotAfter(a.sources[i].best, groups[n].passages[0])
      ensures exists k :: 0 <= k < |groups| && Shows(a.sources[i], groups[k])
    {
      var k :| 0 <= k < |front| && Shows(a.sources[i], front[k]);
      ShowsBest(a.sources[i], front[k]);
      assert groups[k] == s.groups[k] && groups[n] == s.groups[n];
    }
    forall i | 0 <= i < |t.sources| ensures exists k :: 0 <= k < |groups| && Shows(t.sources[i], groups[k]) {
      if i < |a.sources| { assert t.sources[i] == a.sources[i]; } else { assert Shows(t.sources[i], groups[n]); }
    }
    forall i, j | 0 <= i < j < |t.sources|
      ensures t.sources[i].best.documentId != t.sources[j].best.documentId
              && NotAfter(t.sources[i].best, t.sources[j].best)
    {
      assert t.sources[i] == a.sources[i] && (j < |a.sources| ==> t.sources[j] == a.sources[j]);
    }
  }

  lemma ShowsBest(source: Source, g: Group)
    requires Shows(source, g)
    ensures g.passages != [] && g.passages[0] == source.best
  {
  }

  lemma NoSources(l: Limits)
    ensures WithinLimits(NO_SOURCES, l) && InRankOrder([]) && Drawn([], [])
  {
  }

  // ---------- the text ----------

  function Blocks(sources: seq<Source>): seq<string> {
    seq(|sources|, i requires 0 <= i < |sources| => BlockOf(sources[i]))
  }

  /** The count leaves out the blank lines between the blocks, and nothing else. */
  lemma {:induction false} TextLength(sources: seq<Source>)
    ensures |Joined(Blocks(sources), "\n\n")| <=
        4 * UsedBy(sources) + (if sources == [] then 0 else 2 * (|sources| - 1))
  {
    hide BlockOf;
    if sources != [] {
      var front := sources[..|sources| - 1];
      TextLength(front);
      assert Blocks(sources)[..|sources| - 1] == Blocks(front);
    }
  }

  // ---------- the builder ----------

  function ContextOf(a: Assembly): Context {
    Context(Joined(Blocks(a.sources), "\n\n"), a.sources, a.used)
  }

  /** What a context promises for these passages. */
  ghost predicate IsContext(c: Context, passages: seq<Passage>, l: Limits, maxChunks: nat)
    requires maxChunks >= 1
  {
    var s := Selected(Sort(passages, NotAfter), maxChunks);
    && WellGrouped(s, maxChunks) && WithoutRepetition(s.selected) && LeavesOutOnly(passages, s.selected, maxChunks)
    && NonEmpty(s.groups)
    && var a := Assembled(NO_SOURCES, s.groups, l);
       && WithinLimits(a, l) && InRankOrder(a.sources) && Drawn(a.sources, s.groups)
       && c == ContextOf(a)
       && (c.tokenCount > l.budget <==> PassesBudget(s.groups, l))
  }

  /** The text of the context: one block for each source, with one empty line between two blocks. */
  ghost predicate WrittenAs(c: Context, blocks: seq<string>) {
    && |blocks| == |c.sources| && Separated(c.text, blocks, "\n\n")
    && forall i :: 0 <= i < |blocks| ==>
         IsBlock(blocks[i], c.sources[i].citation, c.sources[i].best, c.sources[i].passage)
  }

  lemma BlocksAreWritten(c: Context)
    requires c.text == Joined(Blocks(c.sources), "\n\n")
    ensures WrittenAs(c, Blocks(c.sources))
  {
    hide Joined, Separated, IsBlock, Block;
    JoinedIsSeparated(Blocks(c.sources), "\n\n");
    forall i | 0 <= i < |c.sources|
      ensures IsBlock(Blocks(c.sources)[i], c.sources[i].citation, c.sources[i].best, c.sources[i].passage)
    {
      BlockIsBlock(c.sources[i].citation, c.sources[i].best, c.sources[i].passage);
    }
  }

  lemma RankOrderIs(sources: seq<Source>)
    requires InRankOrder(sources)
    ensures forall i, j :: 0 <= i < j < |sources| ==>
              var p, q := sources[i].best, sources[j].best;
              p.documentId != q.documentId && (p.rank < q.rank || (p.rank == q.rank && p.chunkId <= q.chunkId))
  {
  }

  class Builder {
    const limits: Limits
    const maxChunks: nat

    constructor (limits: Limits, maxChunks: nat)
      ensures this.limits == limits && this.maxChunks == maxChunks
    {
      this.limits, this.maxChunks := limits, maxChunks;
    }

    method Select(sorted: seq<Passage>) returns (groups: seq<Group>, ghost selected: seq<Passage>)
      ensures Selection(groups, selected) == Selected(sorted, maxChunks)
      ensures groups == Selected(sorted, maxChunks).groups
    {
      hide DedupText, Overlaps;
      groups, selected := [], [];
      var seen: seq<string> := [];
      for n := 0 to |sorted|
        invariant Selection(groups, selected) == Selected(sorted[..n], maxChunks)
        invariant |seen| == |selected| && forall i :: 0 <= i < |seen| ==> seen[i] == DedupText(selected[i].text)
      {
        var p := sorted[n];
        assert sorted[..n + 1][..n] == sorted[..n];
        var normalized := DedupText(p.text);
        if normalized != "" && !exists i :: 0 <= i < |seen| && Overlaps(normalized, seen[i]) {
          assert !Repeats(selected, p);
          var g := GroupIndex(groups, p.documentId);
          if g == |groups| {
            groups, selected, seen := groups + [Group(p.documentId, [p])], selected + [p], seen + [normalized];
          } else if |groups[g].passages| < maxChunks {
            groups := groups[g := Group(p.documentId, groups[g].passages + [p])];
            selected, seen := selected + [p], seen + [normalized];
          }
        } else {
          assert Repeats(selected, p);
        }
      }
      assert sorted[..|sorted|] == sorted;
    }

    method Assemble(groups: seq<Group>) returns (c: Context)
      requires NonEmpty(groups)
      ensures var a := Assembled(NO_SOURCES, groups, limits);
              c == ContextOf(a)
    {
      hide Block, Escaped, GroupText, Truncate, Tokens, Joined;
      var sources: seq<Source>, blocks: seq<string>, used: nat := [], [], 0;
      var n := 0;
      while n < |groups|
        invariant 0 <= n <= |groups|
        invariant Assembly(sources, used) == Assembled(NO_SOURCES, groups[..n], limits)
        invariant blocks == Blocks(sources)
      {
        hide Blocks, BlockOf;
        var group := groups[n];
        assert groups[..n + 1][..n] == groups[..n];
        if |sources| >= limits.maxSources {
          RestIsIgnored(groups, n, limits);
          break;
        }
        var best, citation := group.passages[0], |sources| + 1;
        var safe := Escaped(GroupText(group));
        var block := Block(citation, best, safe);
        if used + Tokens(block) <= limits.budget || limits.budget - used >= 40 {
          if used + Tokens(block) > limits.budget {
            safe := Truncate(safe, (limits.budget - used) * 4);
            block := Block(citation, best, safe);
          }
          OneMoreBlock(sources, Source(citation, best, safe));
          sources := sources + [Source(citation, best, safe)];
          blocks := blocks + [block];
          used := used + Tokens(block);
        }
        n := n + 1;
      }
      assert groups[..|groups|] == groups;
      c := Context(Joined(blocks, "\n\n"), sources, used);
    }

    /** build */
    method Build(passages: seq<Passage>) returns (c: Context)
      requires maxChunks >= 1
      ensures IsContext(c, passages, limits, maxChunks)
      ensures |c.sources| <= limits.maxSources
      ensures forall i :: 0 <= i < |c.sources| ==> c.sources[i].citation == i + 1 && Unmarked(c.sources[i].passage)
      ensures forall i, j :: 0 <= i < j < |c.sources| ==>
                var p, q := c.sources[i].best, c.sources[j].best;
                p.documentId != q.documentId && (p.rank < q.rank || (p.rank == q.rank && p.chunkId <= q.chunkId))
      ensures exists blocks :: WrittenAs(c, blocks)
      ensures c.tokenCount <= limits.budget
              || (c.sources != [] && c.tokenCount <= limits.budget + Overrun(c.sources[|c.sources| - 1]))
      ensures |c.text| <= 4 * c.tokenCount + 2 * |c.sources|
    {
      hide *;
      ContextIsRight(passages, limits, maxChunks);
      var groups, selected := Select(Sort(passages, NotAfter));
      c := Assemble(groups);
      ContextFacts(c, passages, limits, maxChunks);
    }
  }

  lemma ContextIsRight(passages: seq<Passage>, l: Limits, maxChunks: nat)
    requires maxChunks >= 1
    ensures var s := Selected(Sort(passages, NotAfter), maxChunks);
            NonEmpty(s.groups) && IsContext(ContextOf(Assembled(NO_SOURCES, s.groups, l)), passages, l, maxChunks)
  {
    hide Selected, WithoutRepetition, LeavesOutOnly, WithinLimits, InRankOrder, Drawn, Assembled, Joined, Blocks;
    hide NotAfter, OfDocument, PassesBudget, Sort;
    SelectedFromSorted(passages, maxChunks);
    var s := Selected(Sort(passages, NotAfter), maxChunks);
    AssembledIsRight(s.groups, l, s, maxChunks);
    ContextPassesTheBudgetIff(s.groups, l);
  }

  lemma ContextFacts(c: Context, passages: seq<Passage>, l: Limits, maxChunks: nat)
    requires maxChunks >= 1 && IsContext(c, passages, l, maxChunks)
    ensures |c.sources| <= l.maxSources
    ensures forall i, j :: 0 <= i < j < |c.sources| ==>
              var p, q := c.sources[i].best, c.sources[j].best;
              p.documentId != q.documentId && (p.rank < q.rank || (p.rank == q.rank && p.chunkId <= q.chunkId))
    ensures exists blocks :: WrittenAs(c, blocks)
    ensures forall i :: 0 <= i < |c.sources| ==> c.sources[i].citation == i + 1 && Unmarked(c.sources[i].passage)
    ensures c.tokenCount <= l.budget
            || (c.sources != [] && c.tokenCount <= l.budget + Overrun(c.sources[|c.sources| - 1]))
    ensures |c.text| <= 4 * c.tokenCount + 2 * |c.sources|
  {
    hide Selected, WellGrouped, WithoutRepetition, LeavesOutOnly, InRankOrder, Drawn, Assembled, Joined, Blocks;
    hide NotAfter, PassesBudget, Sort, Unmarked, Overrun, UsedBy, WrittenAs;
    TextLength(c.sources);
    assert InRankOrder(c.sources);
    RankOrderIs(c.sources);
    BlocksAreWritten(c);
  }

  lemma NotAfterIsTotal()
    ensures TotalOrder(NotAfter)
  {
  }

  lemma SelectedFromSorted(passages: seq<Passage>, maxChunks: nat)
    requires maxChunks >= 1
    ensures var s := Selected(Sort(passages, NotAfter), maxChunks);
            WellGrouped(s, maxChunks) && WithoutRepetition(s.selected) && LeavesOutOnly(passages, s.selected, maxChunks)
  {
    hide NotAfter, Sort, Selected, WellGrouped, WithoutRepetition, Repeats, OfDocument;
    NotAfterIsTotal();
    SortIsSorted(passages, NotAfter);
    SelectionIsRight(Sort(passages, NotAfter), maxChunks);
  }

  lemma {:induction false} NoMoreSources(a: Assembly, groups: seq<Group>, l: Limits)
    requires NonEmpty(groups) && |a.sources| >= l.maxSources
    ensures Assembled(a, groups, l) == a
  {
    if groups != [] {
      NoMoreSources(a, groups[..|groups| - 1], l);
    }
  }

  lemma RestIsIgnored(groups: seq<Group>, n: nat, l: Limits)
    requires NonEmpty(groups) && n <= |groups|
    requires |Assembled(NO_SOURCES, groups[..n], l).sources| >= l.maxSources
    ensures Assembled(NO_SOURCES, groups, l) == Assembled(NO_SOURCES, groups[..n], l)
  {
    hide Added, Assembled;
    var start := NO_SOURCES;
    NoMoreSources(Assembled(start, groups[..n], l), groups[n..], l);
    AssembledInTwo(start, groups[..n], groups[n..], l);
    assert groups[..n] + groups[n..] == groups;
  }

  lemma OneMoreBlock(sources: seq<Source>, s: Source)
    ensures Blocks(sources + [s]) == Blocks(sources) + [Block(s.citation, s.best, s.passage)]
  {
    hide Block;
  }

  lemma {:induction false} AssembledInTwo(a: Assembly, first: seq<Group>, second: seq<Group>, l: Limits)
    requires NonEmpty(first) && NonEmpty(second)
    ensures NonEmpty(first + second)
    ensures Assembled(a, first + second, l) == Assembled(Assembled(a, first, l), second, l)
  {
    hide Added;
    if second == [] {
      assert first + second == first;
    } else {
      AssembledInTwo(a, first, second[..|second| - 1], l);
      assert (first + second)[..|first + second| - 1] == first + second[..|second| - 1];
    }
  }
}
