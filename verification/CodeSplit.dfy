/** A block larger than the limit cut into parts that fit: text by tokens, fenced code by lines. */
module CodeSplit {
  import opened Common
  import opened Text
  import opened TokenCounter
  import opened Markdown

  // ---------- the fence around a code block ----------

  datatype Fenced = Fenced(fence: Str, info: Str, body: Str, closed: bool) {
    function Open(): Str { fence + info }
    /** The code block that this fence and body were read from. */
    function Source(): Str {
      fence + info + [LF] + body + (if closed then [LF] + fence else [])
    }
  }

  predicate EndsWith(s: Str, suffix: Str) {
    |suffix| <= |s| && s[|s| - |suffix|..] == suffix
  }

  /** The opening fence of a block, and its body with the closing fence taken off. */
  function ReadFence(text: Str): Option<Fenced> {
    var n := TickRun(text);
    var m := LanguageRun(text[n..]);
    if n < 3 || n + m == |text| || text[n + m] != LF then None
    else
      var fence, info, body := text[..n], text[n..n + m], text[n + m + 1..];
      if EndsWith(body, [LF] + fence) then Some(Fenced(fence, info, body[..|body| - n - 1], true))
      else Some(Fenced(fence, info, body, false))
  }

  lemma CutInFour(text: Str, n: nat, m: nat)
    requires n + m < |text| && text[n + m] == LF
    ensures text == text[..n] + text[n..n + m] + [LF] + text[n + m + 1..]
  {
  }

  lemma CutSuffix(body: Str, suffix: Str)
    requires EndsWith(body, suffix)
    ensures body == body[..|body| - |suffix|] + suffix
  {
  }

  /** Nothing of the block is lost when its fence is read off. */
  lemma FenceReadBack(text: Str)
    requires ReadFence(text).Some?
    ensures ReadFence(text).value.Source() == text
  {
    hide LanguageRun, TickRun, EndsWith;
    var n := TickRun(text);
    var m := LanguageRun(text[n..]);
    var body := text[n + m + 1..];
    CutInFour(text, n, m);
    if EndsWith(body, [LF] + text[..n]) {
      CutSuffix(body, [LF] + text[..n]);
    }
  }

  lemma FenceIsTicks(text: Str)
    requires ReadFence(text).Some?
    ensures var f := ReadFence(text).value; |f.fence| >= 3 && f.fence[0] == Tick
  {
  }

  lemma {:induction false} LineEndOf(s: Str, e: nat)
    requires e <= |s| && (forall i :: 0 <= i < e ==> s[i] != LF) && (e < |s| ==> s[e] == LF)
    ensures LineEnd(s) == e
  {
    if e > 0 {
      assert forall i :: 0 <= i < e - 1 ==> s[1..][i] == s[i + 1];
      LineEndOf(s[1..], e - 1);
    }
  }

  /** A fence is read off exactly when the first line is one and another line follows; what is read is its backticks,
      the rest of that line, and the other lines without a closing fence at the very end. */
  lemma ReadFenceIff(text: Str)
    ensures ReadFence(text).Some? <==> LineEnd(text) < |text| && exists n :: IsFenceLine(text[..LineEnd(text)], n)
    ensures ReadFence(text).Some? ==>
              var f, e := ReadFence(text).value, LineEnd(text);
              && IsFenceLine(f.fence + f.info, |f.fence|) && text[..e] == f.fence + f.info
              && (f.closed <==> EndsWith(text[e + 1..], [LF] + f.fence))
  {
    hide LineEnd, IsFenceLine, EndsWith, ReadFence;
    if ReadFence(text).Some? { FenceWasThere(text); }
    if LineEnd(text) < |text| {
      if k :| IsFenceLine(text[..LineEnd(text)], k) { FenceIsFound(text, k); }
    }
  }

  lemma FenceIsFound(text: Str, k: int)
    requires LineEnd(text) < |text| && IsFenceLine(text[..LineEnd(text)], k)
    ensures ReadFence(text).Some?
  {
    hide LineEnd, EndsWith, TickRun, LanguageRun;
    FenceLineRuns(text, LineEnd(text), k);
  }

  lemma FenceWasThere(text: Str)
    requires ReadFence(text).Some?
    ensures var f, e := ReadFence(text).value, LineEnd(text);
            && e < |text| && IsFenceLine(f.fence + f.info, |f.fence|) && text[..e] == f.fence + f.info
            && (f.closed <==> EndsWith(text[e + 1..], [LF] + f.fence))
  {
    hide LineEnd, IsFenceLine, EndsWith, TickRun, LanguageRun;
    var n := TickRun(text);
    var m := LanguageRun(text[n..]);
    NoFeedInRuns(text, n, m);
    LineEndOf(text, n + m);
    RunsAreFenceLine(text, n, m);
    assert text[..n + m] == text[..n] + text[n..n + m];
  }

  lemma NoFeedInRuns(text: Str, n: nat, m: nat)
    requires n == TickRun(text) && m == LanguageRun(text[n..]) && n + m <= |text|
    ensures forall i :: 0 <= i < n + m ==> text[i] != LF
  {
    RunsAre(text);
    RunsAre(text[n..]);
    assert forall i :: n <= i < n + m ==> text[i] == text[n..][i - n];
  }

  lemma RunsAreFenceLine(text: Str, n: nat, m: nat)
    requires n == TickRun(text) >= 3 && m == LanguageRun(text[n..]) && n + m <= |text|
    ensures IsFenceLine(text[..n + m], n)
  {
    hide TickRun, LanguageRun, IsLanguageChar;
    RunsAre(text);
    RunsAre(text[n..]);
    var line := text[..n + m];
    forall i | n <= i < |line| ensures IsLanguageChar(line[i]) {
      assert line[i] == text[n..][i - n];
    }
    CharsAreFenceLine(line, n);
  }

  lemma CharsAreFenceLine(line: Str, n: nat)
    requires 3 <= n <= |line| && (forall i :: 0 <= i < n ==> line[i] == Tick)
    requires forall i :: n <= i < |line| ==> IsLanguageChar(line[i])
    ensures IsFenceLine(line, n)
  {
  }

  lemma FenceLineRuns(text: Str, e: nat, k: nat)
    requires e < |text| && text[e] == LF && IsFenceLine(text[..e], k)
    ensures TickRun(text) == k && LanguageRun(text[k..]) == e - k
  {
    assert forall i :: 0 <= i < e ==> text[..e][i] == text[i];
    TickRunExact(text, k);
    assert forall i :: k <= i < e ==> text[k..][i - k] == text[i];
    LanguageRunExact(text[k..], e - k);
  }

  /** The tokens of an opening and a closing line around nothing. */
  function Overhead(f: Fenced): nat {
    |Tokens(f.fence + f.info + [LF, LF] + f.fence)|
  }

  function Capacity(f: Fenced, maximum: nat): nat {
    if maximum - Overhead(f) > 1 then maximum - Overhead(f) else 1
  }

  /** A part of the code inside a fence of its own. */
  function Rewrap(f: Fenced, group: Str): Str {
    f.fence + f.info + [LF] + group + [LF] + f.fence
  }

  lemma RewrapTokens(f: Fenced, group: Str)
    ensures Tokens(Rewrap(f, group)) == Tokens(f.Open()) + Tokens(group) + Tokens(f.fence)
    ensures |Tokens(Rewrap(f, group))| == Overhead(f) + |Tokens(group)|
    ensures Tokens(f.Source()) == Tokens(f.Open()) + Tokens(f.body) + (if f.closed then Tokens(f.fence) else [])
  {
    hide Tokens;
    TokensAcrossLine(f.Open(), group);
    TokensAcrossLine(f.Open() + [LF] + group, f.fence);
    TokensAcrossLine(f.Open(), []);
    TokensAcrossLine(f.Open() + [LF] + [], f.fence);
    assert f.Open() + [LF] + [] + [LF] + f.fence == f.fence + f.info + [LF, LF] + f.fence;
    TokensAcrossLine(f.Open(), f.body);
    if f.closed {
      TokensAcrossLine(f.Open() + [LF] + f.body, f.fence);
      assert f.Source() == f.Open() + [LF] + f.body + [LF] + f.fence;
    } else {
      assert f.Source() == f.Open() + [LF] + f.body;
    }
    TokensOfNothing();
  }

  lemma TokensOfNothing()
    ensures Tokens([]) == []
  {
  }

  // ---------- _split_code_block ----------

  /** The lines of every group, one group after the other. */
  function Flat<T>(groups: seq<seq<T>>): seq<T> {
    if groups == [] then [] else Flat(groups[..|groups| - 1]) + groups[|groups| - 1]
  }

  lemma FlatSnoc<T>(groups: seq<seq<T>>, group: seq<T>)
    ensures Flat(groups + [group]) == Flat(groups) + group
  {
    assert (groups + [group])[..|groups|] == groups;
  }

  lemma {:induction false} FlatConcat<T>(a: seq<seq<T>>, b: seq<seq<T>>)
    ensures Flat(a + b) == Flat(a) + Flat(b)
  {
    if b == [] {
      assert a + b == a;
    } else {
      var front := b[..|b| - 1];
      assert (a + b)[..|a + b| - 1] == a + front;
      FlatConcat(a, front);
    }
  }

  function Size(lines: seq<Str>): nat { |AllTokens(lines)| }

  predicate Fit(groups: seq<seq<Str>>, capacity: nat) {
    forall i :: 0 <= i < |groups| ==> groups[i] != [] && Size(groups[i]) <= capacity
  }

  function Singletons(parts: seq<Str>): (r: seq<seq<Str>>)
    ensures |r| == |parts| && forall i :: 0 <= i < |r| ==> r[i] == [parts[i]]
  {
    seq(|parts|, i requires 0 <= i < |parts| => [parts[i]])
  }

  lemma {:induction false} FlatSingletons(parts: seq<Str>)
    ensures Flat(Singletons(parts)) == parts
  {
    if parts != [] {
      var front := parts[..|parts| - 1];
      FlatSingletons(front);
      assert Singletons(parts)[..|parts| - 1] == Singletons(front);
    }
  }

  lemma AllTokensOne(s: Str)
    ensures AllTokens([s]) == Tokens(s)
  {
    hide Tokens;
    AllTokensSnoc([], s);
    assert [] + [s] == [s];
  }

  /** `groups` and the group still open hold the lines of `done`, cut only where a line exceeds the capacity. */
  ghost predicate Grouped(groups: seq<seq<Str>>, current: seq<Str>, done: seq<Str>, capacity: nat) {
    && Fit(groups, capacity) && Size(current) <= capacity
    && AllTokens(Flat(groups) + current) == AllTokens(done)
    && ((forall i :: 0 <= i < |done| ==> |Tokens(done[i])| <= capacity) ==> Flat(groups) + current == done)
    && (done != [] ==> groups != [] || current != [])
  }

  lemma CloseGroup(groups: seq<seq<Str>>, current: seq<Str>, done: seq<Str>, capacity: nat)
    requires Grouped(groups, current, done, capacity) && current != []
    ensures Grouped(groups + [current], [], done, capacity)
  {
    hide Tokens, Flat;
    FlatSnoc(groups, current);
    assert Flat(groups + [current]) + [] == Flat(groups) + current;
  }

  lemma AddLine(groups: seq<seq<Str>>, current: seq<Str>, done: seq<Str>, capacity: nat, line: Str)
    requires Grouped(groups, current, done, capacity) && Size(current + [line]) <= capacity
    ensures Grouped(groups, current + [line], done + [line], capacity)
  {
    hide Tokens, AllTokens, Flat;
    AllTokensSnoc(Flat(groups) + current, line);
    AllTokensSnoc(done, line);
    assert Flat(groups) + (current + [line]) == Flat(groups) + current + [line];
    if forall i :: 0 <= i < |done + [line]| ==> |Tokens((done + [line])[i])| <= capacity {
      forall i | 0 <= i < |done| ensures |Tokens(done[i])| <= capacity {
        assert done[i] == (done + [line])[i];
      }
    }
  }

  lemma CutLine(groups: seq<seq<Str>>, done: seq<Str>, capacity: nat, line: Str, parts: seq<Str>)
    requires Grouped(groups, [], done, capacity) && |Tokens(line)| > capacity
    requires AllTokens(parts) == Tokens(line)
    requires forall p :: 0 <= p < |parts| ==> |Tokens(parts[p])| <= capacity
    ensures Grouped(groups + Singletons(parts), [], done + [line], capacity)
  {
    hide Tokens, AllTokens, Flat;
    PartsFit(parts, capacity);
    FlatSingletons(parts);
    FlatConcat(groups, Singletons(parts));
    assert Flat(groups) + [] == Flat(groups);
    assert Flat(groups + Singletons(parts)) + [] == Flat(groups) + parts;
    AllTokensConcat(Flat(groups), parts);
    AllTokensSnoc(done, line);
    AllTokensNone();
    assert (done + [line])[|done|] == line;
  }

  // ---------- when a group is closed ----------

  /** A run of tokens of a line that does not fit on its own. */
  ghost predicate IsPiece(group: seq<Str>, lines: seq<Str>, capacity: nat) {
    |group| == 1 && exists k, a, b {:trigger Tokens(lines[k])[a..b]} ::
      && 0 <= k < |lines| && |Tokens(lines[k])| > capacity
      && 0 <= a <= b <= |Tokens(lines[k])| && Tokens(group[0]) == Tokens(lines[k])[a..b]
  }

  /** Group i, or the open one behind the last: whole[i] says that it holds whole lines. A group of whole lines
      is followed by another such group only if the first line of that would not have fitted into it; every
      other group is a piece of a line that does not fit on its own. */
  ghost predicate Crowded(groups: seq<seq<Str>>, current: seq<Str>, whole: seq<bool>, done: seq<Str>, capacity: nat) {
    && |whole| == |groups|
    && (forall i :: 0 <= i < |groups| && !whole[i] ==> IsPiece(groups[i], done, capacity))
    && (forall i {:trigger whole[i]} :: 0 <= i < |groups| && whole[i] ==> FullFor(groups, current, whole, i, capacity))
  }

  /** What follows group i does not fit into it, unless it is a piece. */
  ghost predicate FullFor(groups: seq<seq<Str>>, current: seq<Str>, whole: seq<bool>, i: nat, capacity: nat)
    requires i < |groups| == |whole|
  {
    if i + 1 < |groups| then
      whole[i + 1] && groups[i + 1] != [] ==> Size(groups[i]) + |Tokens(groups[i + 1][0])| > capacity
    else
      current != [] ==> Size(groups[i]) + |Tokens(current[0])| > capacity
  }

  lemma StillPiece(group: seq<Str>, done: seq<Str>, line: Str, capacity: nat)
    requires IsPiece(group, done, capacity)
    ensures IsPiece(group, done + [line], capacity)
  {
    hide Tokens;
    var k, a, b :| 0 <= k < |done| && |Tokens(done[k])| > capacity
                   && 0 <= a <= b <= |Tokens(done[k])| && Tokens(group[0]) == Tokens(done[k])[a..b];
    var more := done + [line];
    assert more[k] == done[k];
    assert Tokens(group[0]) == Tokens(more[k])[a..b];
  }

  lemma CloseCrowded(groups: seq<seq<Str>>, current: seq<Str>, whole: seq<bool>, done: seq<Str>, capacity: nat)
    requires Crowded(groups, current, whole, done, capacity) && current != []
    ensures Crowded(groups + [current], [], whole + [true], done, capacity)
  {
    hide Tokens, Size, IsPiece;
    var g, w := groups + [current], whole + [true];
    forall i {:trigger w[i]} | 0 <= i < |g| && w[i] ensures FullFor(g, [], w, i, capacity) {
      if i < |groups| { assert FullFor(groups, current, whole, i, capacity) by { assert whole[i]; } }
    }
  }

  lemma AddCrowded(groups: seq<seq<Str>>, current: seq<Str>, whole: seq<bool>, done: seq<Str>, line: Str, capacity: nat)
    requires Crowded(groups, current, whole, done, capacity)
    requires current == [] && groups != [] && whole[|groups| - 1] ==>
        Size(groups[|groups| - 1]) + |Tokens(line)| > capacity
    ensures Crowded(groups, current + [line], whole, done + [line], capacity)
  {
    hide Tokens, Size, IsPiece;
    var open := current + [line];
    forall i | 0 <= i < |groups| && !whole[i] ensures IsPiece(groups[i], done + [line], capacity) {
      StillPiece(groups[i], done, line, capacity);
    }
    forall i {:trigger whole[i]} | 0 <= i < |groups| && whole[i] ensures FullFor(groups, open, whole, i, capacity) {
      assert FullFor(groups, current, whole, i, capacity);
      assert current != [] ==> open[0] == current[0];
    }
  }

  lemma PartIsPiece(parts: seq<Str>, p: nat, line: Str, done: seq<Str>, capacity: nat)
    requires p < |parts| && AllTokens(parts) == Tokens(line) && |Tokens(line)| > capacity
    ensures IsPiece([parts[p]], done + [line], capacity)
  {
    hide Tokens, AllTokens;
    var more, k := done + [line], |done|;
    var a, b := |AllTokens(parts[..p])|, |AllTokens(parts[..p + 1])|;
    assert parts == parts[..p + 1] + parts[p + 1..] && parts[..p + 1] == parts[..p] + [parts[p]];
    AllTokensConcat(parts[..p + 1], parts[p + 1..]);
    AllTokensSnoc(parts[..p], parts[p]);
    assert more[k] == line;
    assert Tokens([parts[p]][0]) == Tokens(more[k])[a..b];
  }

  function Pieces(n: nat): (r: seq<bool>)
    ensures |r| == n && forall i :: 0 <= i < n ==> !r[i]
  {
    seq(n, _ => false)
  }

  lemma CutCrowded(groups: seq<seq<Str>>, whole: seq<bool>, done: seq<Str>, line: Str, parts: seq<Str>, capacity: nat)
    requires Crowded(groups, [], whole, done, capacity)
    requires AllTokens(parts) == Tokens(line) && |Tokens(line)| > capacity && parts != []
    ensures Crowded(groups + Singletons(parts), [], whole + Pieces(|parts|), done + [line], capacity)
  {
    hide Tokens, AllTokens, Size, IsPiece;
    var g, w := groups + Singletons(parts), whole + Pieces(|parts|);
    forall i | 0 <= i < |g| && !w[i] ensures IsPiece(g[i], done + [line], capacity) {
      if i < |groups| {
        StillPiece(groups[i], done, line, capacity);
      } else {
        PartIsPiece(parts, i - |groups|, line, done, capacity);
      }
    }
    forall i {:trigger w[i]} | 0 <= i < |g| && w[i] ensures FullFor(g, [], w, i, capacity) {
      assert FullFor(groups, [], whole, i, capacity) by { assert whole[i]; }
    }
  }

  lemma NothingCrowded(capacity: nat)
    ensures Crowded([], [], [], [], capacity)
  {
  }

  lemma NotCutAway(parts: seq<Str>, line: Str, capacity: nat)
    requires AllTokens(parts) == Tokens(line) && |Tokens(line)| > capacity
    ensures parts != []
  {
    hide Tokens;
    AllTokensNone();
  }

  lemma CandidateSize(current: seq<Str>, line: Str)
    ensures Size(current + [line]) == Size(current) + |Tokens(line)|
  {
    hide Tokens;
    AllTokensSnoc(current, line);
  }

  // ---------- the lines of the groups ----------

  /** What becomes of each line: it stays as it is, or is cut into stretches of it when it does not fit alone. */
  ghost predicate CutLines(lines: seq<Str>, cuts: seq<seq<Str>>, capacity: nat) {
    |cuts| == |lines| && forall k :: 0 <= k < |lines| ==> CutLineBy(lines[k], cuts[k], capacity)
  }

  ghost predicate CutLineBy(line: Str, parts: seq<Str>, capacity: nat) {
    if |Tokens(line)| <= capacity then parts == [line]
    else AllTokens(parts) == Tokens(line) && forall p :: 0 <= p < |parts| ==> IsStretch(line, parts[p])
  }

  ghost predicate OneLiners(lines: seq<Str>) {
    forall i :: 0 <= i < |lines| ==> LF !in lines[i]
  }

  lemma NoLinesCut(capacity: nat)
    ensures CutLines([], [], capacity) && Flat<Str>([]) == [] && OneLiners([])
  {
  }

  lemma LineIsCut(line: Str, parts: seq<Str>, capacity: nat)
    requires |Tokens(line)| > capacity && AllTokens(parts) == Tokens(line)
    requires forall p :: 0 <= p < |parts| ==> IsStretch(line, parts[p])
    ensures CutLineBy(line, parts, capacity)
  {
  }

  lemma LineIsWhole(line: Str, capacity: nat)
    requires |Tokens(line)| <= capacity
    ensures CutLineBy(line, [line], capacity)
  {
  }

  lemma CutOneMore(lines: seq<Str>, cuts: seq<seq<Str>>, capacity: nat, line: Str, parts: seq<Str>)
    requires CutLines(lines, cuts, capacity) && CutLineBy(line, parts, capacity)
    ensures CutLines(lines + [line], cuts + [parts], capacity)
    ensures Flat(cuts + [parts]) == Flat(cuts) + parts
  {
    hide CutLineBy;
    FlatSnoc(cuts, parts);
  }

  /** A stretch of one line is one line. */
  lemma StretchIsOneLine(line: Str, part: Str)
    requires LF !in line && IsStretch(line, part)
    ensures LF !in part
  {
    hide Begins, Ends, Strip;
    var i, j :| 0 <= i <= j <= |line| && Begins(line, i) && Ends(line, j) && part == Strip(line[i..j]);
    var a, b := StripIsSlice(line[i..j]);
  }

  lemma {:induction false} FlatOfOneLiners(groups: seq<seq<Str>>, i: nat)
    requires OneLiners(Flat(groups)) && i < |groups|
    ensures OneLiners(groups[i])
  {
    var front, last := groups[..|groups| - 1], groups[|groups| - 1];
    forall k | 0 <= k < |last| ensures LF !in last[k] {
      assert last[k] == Flat(groups)[|Flat(front)| + k];
    }
    forall k | 0 <= k < |Flat(front)| ensures LF !in Flat(front)[k] {
      assert Flat(front)[k] == Flat(groups)[k];
    }
    if i < |front| {
      FlatOfOneLiners(front, i);
    }
  }

  /** Lines with a line feed between them are these lines again, also when some are empty. */
  lemma {:induction false} LinesOfJoined(lines: seq<Str>, rest: Str)
    requires lines != [] && OneLiners(lines)
    ensures Lines(Join(lines, [LF]) + [LF] + rest) == lines + Lines(rest)
  {
    hide Lines, Join, LineEnd;
    var first := lines[0];
    if |lines| == 1 {
      JoinOne(first);
      LineThenRest(first, rest);
      assert lines == [first];
    } else {
      var more := lines[1..];
      LinesOfJoined(more, rest);
      JoinCons(first, more, [LF]);
      assert lines == [first] + more;
      var tail := Join(more, [LF]) + [LF] + rest;
      assert Join(lines, [LF]) + [LF] + rest == first + [LF] + tail;
      LineThenRest(first, tail);
    }
  }

  lemma JoinOne(line: Str)
    ensures Join([line], [LF]) == line
  {
  }

  lemma LineThenRest(line: Str, rest: Str)
    requires LF !in line
    ensures Lines(line + [LF] + rest) == [line] + Lines(rest)
  {
    hide LineEnd;
    var s := line + [LF] + rest;
    assert s[..|line|] == line && s[|line| + 1..] == rest;
    LineEndIs(s, |line|);
    LinesStep(s);
  }

  /** A part of the code has the opening line, its own lines, and the fence as the closing line. */
  lemma LinesOfRewrap(f: Fenced, group: seq<Str>)
    requires group != [] && OneLiners(group) && LF !in f.Open() && LF !in f.fence && f.fence != []
    ensures Lines(Rewrap(f, Join(group, [LF]))) == [f.Open()] + group + [f.fence]
  {
    hide Lines, Join;
    var inner := Join(group, [LF]) + [LF] + f.fence;
    assert Rewrap(f, Join(group, [LF])) == f.Open() + [LF] + inner;
    LineThenRest(f.Open(), inner);
    LinesOfJoined(group, f.fence);
    LinesStep(f.fence);
    NoFeedAtAll(f.fence);
  }

  lemma {:induction false} NoFeedAtAll(s: Str)
    requires LF !in s
    ensures LineEnd(s) == |s|
  {
    if s != [] { NoFeedAtAll(s[1..]); }
  }

  /** The fence and its line are one line each. */
  lemma FenceIsOneLine(text: Str)
    requires ReadFence(text).Some?
    ensures var f := ReadFence(text).value;
            LF !in f.Open() && LF !in f.fence && |f.fence| >= 3 && f.fence[0] == Tick
  {
    var n := TickRun(text);
    RunsAre(text);
    RunsAre(text[n..]);
    FenceIsTicks(text);
  }

  /** The grouping loop of _split_code_block: consecutive lines together while they fit; a line that
      does not fit on its own is cut by tokens. */
  method GroupLines(lines: seq<Str>, capacity: nat) returns (groups: seq<seq<Str>>, ghost cuts: seq<seq<Str>>)
    requires capacity >= 1
    ensures Grouped(groups, [], lines, capacity)
    ensures CutLines(lines, cuts, capacity) && Flat(groups) == Flat(cuts)
    ensures exists c :: CutLines(lines, c, capacity) && Flat(groups) == Flat(c)
    ensures exists whole :: Crowded(groups, [], whole, lines, capacity)
  {
    hide *;
    ghost var whole: seq<bool> := [];
    groups, cuts := [], [];
    NoLinesCut(capacity);
    var current: seq<Str> := [];
    GroupNothing(capacity);
    NothingCrowded(capacity);
    var k := 0;
    while k < |lines|
      invariant 0 <= k <= |lines|
      invariant Grouped(groups, current, lines[..k], capacity)
      invariant CutLines(lines[..k], cuts, capacity) && Flat(groups) + current == Flat(cuts)
      invariant |whole| == |groups| && Crowded(groups, current, whole, lines[..k], capacity)
      invariant current == [] && groups != [] ==> !whole[|groups| - 1]
    {
      var line := lines[k];
      JoinedSize(current + [line]);
      CandidateSize(current, line);
      assert lines[..k + 1] == lines[..k] + [line];
      var candidate := Join(current + [line], [LF]);
      if current != [] && |Tokens(candidate)| > capacity {
        CloseGroup(groups, current, lines[..k], capacity);
        CloseCrowded(groups, current, whole, lines[..k], capacity);
        FlatSnoc(groups, current);
        groups, whole := groups + [current], whole + [true];
        current := [];
      }
      if |Tokens(line)| > capacity {
        if current != [] {
          // The program closes the open group here once more; it has just done so.
          assert false;
        }
        var parts := Split(line, capacity);
        CutLine(groups, lines[..k], capacity, line, parts);
        NotCutAway(parts, line, capacity);
        CutCrowded(groups, whole, lines[..k], line, parts, capacity);
        LineIsCut(line, parts, capacity);
        CutOneMore(lines[..k], cuts, capacity, line, parts);
        FlatSingletons(parts);
        FlatConcat(groups, Singletons(parts));
        cuts := cuts + [parts];
        groups, whole := groups + Singletons(parts), whole + Pieces(|parts|);
      } else {
        assert Size(current + [line]) <= capacity by {
          if current == [] { assert [] + [line] == [line]; OneLineSize(line); }
        }
        AddLine(groups, current, lines[..k], capacity, line);
        AddCrowded(groups, current, whole, lines[..k], line, capacity);
        LineIsWhole(line, capacity);
        CutOneMore(lines[..k], cuts, capacity, line, [line]);
        cuts := cuts + [[line]];
        current := current + [line];
      }
      k := k + 1;
    }
    assert lines[..k] == lines;
    if current != [] {
      CloseGroup(groups, current, lines, capacity);
      CloseCrowded(groups, current, whole, lines, capacity);
      FlatSnoc(groups, current);
      groups, whole := groups + [current], whole + [true];
    }
  }

  lemma GroupNothing(capacity: nat)
    ensures Grouped([], [], [], capacity)
  {
  }

  lemma OneLineSize(line: Str)
    ensures Size([line]) == |Tokens(line)|
  {
    AllTokensOne(line);
  }

  lemma JoinedSize(lines: seq<Str>)
    ensures |Tokens(Join(lines, [LF]))| == Size(lines)
  {
    hide Tokens, AllTokens;
    TokensJoin(lines, [LF]);
  }

  lemma AllTokensNone()
    ensures AllTokens([]) == []
  {
  }

  lemma PartsFit(parts: seq<Str>, capacity: nat)
    requires forall p :: 0 <= p < |parts| ==> |Tokens(parts[p])| <= capacity
    ensures Fit(Singletons(parts), capacity)
  {
    hide Tokens;
    forall i | 0 <= i < |parts| ensures Size(Singletons(parts)[i]) <= capacity {
      AllTokensOne(parts[i]);
    }
  }
}
