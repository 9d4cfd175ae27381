/** The approximate token counter: the matches of \w+|[^\w\s], found from left to right. */
module TokenCounter {
  import opened Text

  /** Length of the run of word characters at the head of `s`. */
  function WordLen(s: Str): (n: nat)
    ensures n <= |s|
  {
    if s != [] && s[0].Word? then 1 + WordLen(s[1..]) else 0
  }

  function TokenLen(s: Str): (n: nat)
    requires s != [] && !IsSpace(s[0])
    ensures 1 <= n <= |s|
  {
    if s[0].Word? then WordLen(s) else 1
  }

  /** The tokens of a text: its words, and every other character that is not white space. */
  function Tokens(s: Str): seq<Str>
    decreases |s|
  {
    if s == [] then []
    else if IsSpace(s[0]) then Tokens(s[1..])
    else [s[..TokenLen(s)]] + Tokens(s[TokenLen(s)..])
  }

  /** The tokens of several texts, one text after the other. */
  function AllTokens(parts: seq<Str>): seq<Str> {
    if parts == [] then []
    else AllTokens(parts[..|parts| - 1]) + Tokens(parts[|parts| - 1])
  }

  /** The place between `a` and `b` is not inside a word. */
  predicate Apart(a: Str, b: Str) {
    a == [] || b == [] || !(a[|a| - 1].Word? && b[0].Word?)
  }

  // ---------- facts about the token sequence ----------

  lemma {:induction false} WordLenConcat(a: Str, b: Str)
    requires a != [] && Apart(a, b)
    ensures WordLen(a + b) == WordLen(a)
  {
    if !a[0].Word? {
    } else if |a| == 1 {
      assert (a + b)[1..] == b && a[1..] == [];
      assert WordLen(b) == 0;
    } else {
      assert (a + b)[1..] == a[1..] + b;
      WordLenConcat(a[1..], b);
    }
  }

  lemma {:induction false} TokensConcat(a: Str, b: Str)
    requires Apart(a, b)
    ensures Tokens(a + b) == Tokens(a) + Tokens(b)
    decreases |a|
  {
    if a == [] {
      assert a + b == b;
    } else if IsSpace(a[0]) {
      assert (a + b)[1..] == a[1..] + b;
      TokensConcat(a[1..], b);
    } else {
      WordLenConcat(a, b);
      var n := TokenLen(a);
      assert TokenLen(a + b) == n;
      assert (a + b)[..n] == a[..n] && (a + b)[n..] == a[n..] + b;
      TokensConcat(a[n..], b);
    }
  }

  lemma {:induction false} TokensOfSpace(s: Str)
    requires forall i :: 0 <= i < |s| ==> IsSpace(s[i])
    ensures Tokens(s) == []
  {
    if s != [] {
      TokensOfSpace(s[1..]);
    }
  }

  lemma {:induction false} TokensLeftStrip(s: Str)
    ensures Tokens(LeftStrip(s)) == Tokens(s)
  {
    if s != [] && IsSpace(s[0]) {
      TokensLeftStrip(s[1..]);
    }
  }

  lemma {:induction false} TokensRightStrip(s: Str)
    ensures Tokens(RightStrip(s)) == Tokens(s)
  {
    if s != [] && IsSpace(s[|s| - 1]) {
      var front, last := s[..|s| - 1], s[|s| - 1..];
      assert s == front + last;
      TokensConcat(front, last);
      TokensOfSpace(last);
      TokensRightStrip(front);
    }
  }

  lemma TokensStrip(s: Str)
    ensures Tokens(Strip(s)) == Tokens(s)
  {
    hide Tokens;
    TokensLeftStrip(s);
    TokensRightStrip(LeftStrip(s));
  }

  /** A text has a token exactly when something remains of it after strip(). */
  lemma {:induction false} HasToken(s: Str)
    ensures (Tokens(s) == []) <==> (Strip(s) == [])
  {
    TokensStrip(s);
  }

  lemma AllTokensSnoc(parts: seq<Str>, last: Str)
    ensures AllTokens(parts + [last]) == AllTokens(parts) + Tokens(last)
  {
    hide Tokens;
    assert (parts + [last])[..|parts|] == parts;
  }

  lemma {:induction false} AllTokensConcat(a: seq<Str>, b: seq<Str>)
    ensures AllTokens(a + b) == AllTokens(a) + AllTokens(b)
  {
    hide Tokens;
    if b == [] {
      assert a + b == a;
    } else {
      var front := b[..|b| - 1];
      assert (a + b)[..|a + b| - 1] == a + front;
      AllTokensConcat(a, front);
    }
  }

  /** Joining with a separator made of line feeds neither merges nor adds tokens. */
  lemma {:induction false} TokensJoin(parts: seq<Str>, sep: Str)
    requires sep != [] && forall i :: 0 <= i < |sep| ==> sep[i] == LF
    ensures Tokens(Join(parts, sep)) == AllTokens(parts)
  {
    hide Tokens, Join, AllTokens;
    if |parts| <= 1 {
      JoinFew(parts, sep);
    } else {
      var front, last := parts[..|parts| - 1], parts[|parts| - 1];
      TokensJoin(front, sep);
      TokensAcross(Join(front, sep), sep, last);
      AllTokensSnoc(front, last);
      JoinSnoc(front, sep, last);
      assert parts == front + [last];
    }
  }

  lemma JoinFew(parts: seq<Str>, sep: Str)
    requires |parts| <= 1
    ensures Tokens(Join(parts, sep)) == AllTokens(parts)
  {
    if parts != [] {
      assert parts[..0] == [];
    }
  }

  lemma TokensAcross(a: Str, sep: Str, b: Str)
    requires sep != [] && forall i :: 0 <= i < |sep| ==> sep[i] == LF
    ensures Tokens(a + sep + b) == Tokens(a) + Tokens(b)
  {
    hide Tokens;
    TokensOfSpace(sep);
    TokensConcat(a, sep);
    TokensConcat(a + sep, b);
  }

  /** A line feed separates two texts and adds no token of its own. */
  lemma TokensAcrossLine(a: Str, b: Str)
    ensures Tokens(a + [LF] + b) == Tokens(a) + Tokens(b)
  {
    TokensAcross(a, [LF], b);
  }

  lemma AllTokensCons(first: Str, rest: seq<Str>)
    ensures AllTokens([first] + rest) == Tokens(first) + AllTokens(rest)
  {
    hide Tokens;
    AllTokensConcat([first], rest);
    assert [first][..0] == [];
  }

  lemma NoLines()
    ensures Tokens([]) == [] && AllTokens([]) == []
  {
  }

  lemma {:induction false} TokensLines(s: Str)
    ensures AllTokens(Lines(s)) == Tokens(s)
    decreases |s|
  {
    hide Tokens, AllTokens, LineEnd;
    if s == [] {
      NoLines();
    } else {
      var n := LineEnd(s);
      if n == |s| {
        AllTokensCons(s, []);
        NoLines();
        assert [s] + [] == [s];
      } else {
        TokensLines(s[n + 1..]);
        AllTokensCons(s[..n], Lines(s[n + 1..]));
        TokensAcrossLine(s[..n], s[n + 1..]);
        assert s == s[..n] + [LF] + s[n + 1..];
      }
    }
  }

  lemma {:induction false} WordRun(s: Str)
    ensures CR !in s[..WordLen(s)]
    ensures WordLen(s) < |s| ==> !s[WordLen(s)].Word?
  {
    if s != [] && s[0].Word? {
      WordRun(s[1..]);
      assert s[..WordLen(s)] == [s[0]] + s[1..][..WordLen(s[1..])];
    }
  }

  /** A token ends where no word goes on, and holds no carriage return. */
  lemma TokenEnds(s: Str)
    requires s != [] && !IsSpace(s[0])
    ensures var n := TokenLen(s);
            && CR !in s[..n]
            && (n < |s| ==> !(s[n - 1].Word? && s[n].Word?))
  {
    WordRun(s);
  }

  lemma {:induction false} TokensNormalizeNewlines(s: Str)
    ensures Tokens(NormalizeNewlines(s)) == Tokens(s)
    decreases |s|
  {
    if s == [] {
    } else if s[0] == CR {
      var rest := if |s| > 1 && s[1] == LF then s[2..] else s[1..];
      TokensNormalizeNewlines(rest);
      TokensAfterSpace(LF, NormalizeNewlines(rest));
      if |s| > 1 && s[1] == LF {
        assert s[1..][1..] == rest;
      }
    } else if IsSpace(s[0]) {
      TokensNormalizeNewlines(s[1..]);
      TokensAfterSpace(s[0], NormalizeNewlines(s[1..]));
    } else {
      var n := TokenLen(s);
      TokenEnds(s);
      TokensNormalizeNewlines(s[n..]);
      TokensOfNormalized(s[..n], s[n..]);
      assert s == s[..n] + s[n..];
    }
  }

  lemma TokensAfterSpace(c: Ch, s: Str)
    requires IsSpace(c)
    ensures Tokens([c] + s) == Tokens(s)
  {
    assert ([c] + s)[1..] == s;
  }

  lemma TokensOfNormalized(a: Str, b: Str)
    requires CR !in a && Apart(a, b)
    requires Tokens(NormalizeNewlines(b)) == Tokens(b)
    ensures Tokens(NormalizeNewlines(a + b)) == Tokens(a + b)
  {
    hide Tokens;
    NormalizeConcat(a, b);
    TokensConcat(a, b);
    TokensConcat(a, NormalizeNewlines(b));
  }

  // ---------- the matches with their positions ----------

  datatype Span = Span(from: nat, to: nat)

  /** The spans of the matches that start at or after `from`. */
  function Matches(value: Str, from: nat): seq<Span>
    requires from <= |value|
    decreases |value| - from
  {
    if from == |value| then []
    else if IsSpace(value[from]) then Matches(value, from + 1)
    else
      var to := from + TokenLen(value[from..]);
      [Span(from, to)] + Matches(value, to)
  }

  /** Position `i` is not inside a word, and the text after it holds exactly
      the tokens that follow the first `done`. */
  ghost predicate Remaining(value: Str, i: nat, done: nat) {
    && i <= |value| && done <= |Tokens(value)|
    && (0 < i < |value| ==> !(value[i - 1].Word? && value[i].Word?))
    && Tokens(value[i..]) == Tokens(value)[done..]
  }

  lemma StepOverToken(value: Str, i: nat, done: nat)
    requires Remaining(value, i, done) && i < |value| && !IsSpace(value[i])
    ensures Remaining(value, i + TokenLen(value[i..]), done + 1)
  {
    var rest := value[i..];
    var n := TokenLen(rest);
    TokenEnds(rest);
    assert rest[n..] == value[i + n..];
    assert Tokens(rest) == [rest[..n]] + Tokens(rest[n..]);
    assert Tokens(value)[done..][1..] == Tokens(value)[done + 1..];
  }

  lemma StepOverSpace(value: Str, i: nat, done: nat)
    requires Remaining(value, i, done) && i < |value| && IsSpace(value[i])
    ensures Remaining(value, i + 1, done)
  {
    assert value[i..][1..] == value[i + 1..];
  }

  /** The k-th match begins where the tokens from the k-th on remain, and ends where those after it do. */
  ghost predicate Bounds(value: Str, span: Span, k: nat) {
    Remaining(value, span.from, k) && Remaining(value, span.to, k + 1)
  }

  lemma AtEnd(value: Str, done: nat)
    requires Remaining(value, |value|, done)
    ensures done == |Tokens(value)|
  {
    assert value[|value|..] == [];
  }

  lemma {:induction false} MatchCount(value: Str, from: nat, done: nat)
    requires Remaining(value, from, done)
    ensures |Matches(value, from)| == |Tokens(value)| - done
    decreases |value| - from
  {
    if from == |value| {
      AtEnd(value, done);
    } else if IsSpace(value[from]) {
      hide Tokens;
      StepOverSpace(value, from, done);
      MatchCount(value, from + 1, done);
    } else {
      hide Tokens;
      StepOverToken(value, from, done);
      MatchCount(value, from + TokenLen(value[from..]), done + 1);
    }
  }

  lemma {:induction false} MatchBounds(value: Str, from: nat, done: nat, k: nat)
    requires Remaining(value, from, done) && k < |Matches(value, from)|
    ensures Bounds(value, Matches(value, from)[k], done + k)
    decreases |value| - from
  {
    hide Tokens;
    if IsSpace(value[from]) {
      StepOverSpace(value, from, done);
      MatchBounds(value, from + 1, done, k);
    } else {
      StepOverToken(value, from, done);
      if k > 0 {
        MatchBounds(value, from + TokenLen(value[from..]), done + 1, k - 1);
      }
    }
  }

  lemma MatchAt(value: Str, k: nat)
    ensures |Matches(value, 0)| == |Tokens(value)|
    ensures k < |Tokens(value)| ==> Bounds(value, Matches(value, 0)[k], k)
  {
    assert value[0..] == value;
    MatchCount(value, 0, 0);
    if k < |Matches(value, 0)| { MatchBounds(value, 0, 0, k); }
  }

  lemma MatchesFrom(value: Str, i: nat)
    requires i <= |value|
    ensures Matches(value, i) ==
            if i == |value| then []
            else if IsSpace(value[i]) then Matches(value, i + 1)
            else [Span(i, i + TokenLen(value[i..]))] + Matches(value, i + TokenLen(value[i..]))
  {
  }

  /** A whole word, or one other character that is not white space. */
  predicate IsMatch(value: Str, m: Span) {
    && m.from < m.to <= |value|
    && if value[m.from].Word? then
         && (forall i :: m.from <= i < m.to ==> value[i].Word?)
         && (m.from > 0 ==> !value[m.from - 1].Word?) && (m.to < |value| ==> !value[m.to].Word?)
       else
         m.to == m.from + 1 && !IsSpace(value[m.from])
  }

  lemma {:induction false} WordLenIsWord(s: Str)
    ensures forall i :: 0 <= i < WordLen(s) ==> s[i].Word?
  {
    if s != [] && s[0].Word? {
      WordLenIsWord(s[1..]);
      assert forall i :: 1 <= i < WordLen(s) ==> s[i] == s[1..][i - 1];
    }
  }

  lemma FirstMatch(value: Str, i: nat, done: nat)
    requires Remaining(value, i, done) && i < |value| && !IsSpace(value[i])
    ensures var m := Span(i, i + TokenLen(value[i..]));
            IsMatch(value, m) && done < |Tokens(value)| && value[m.from..m.to] == Tokens(value)[done]
  {
    FirstIsMatch(value, i);
    var rest := value[i..];
    hide TokenLen, IsMatch, WordLen;
    var n := TokenLen(rest);
    FirstToken(rest);
    assert rest[..n] == value[i..i + n];
    assert Tokens(value)[done] == Tokens(value)[done..][0];
  }

  lemma FirstToken(s: Str)
    requires s != [] && !IsSpace(s[0])
    ensures Tokens(s) != [] && Tokens(s)[0] == s[..TokenLen(s)]
  {
  }

  lemma FirstIsMatch(value: Str, i: nat)
    requires i < |value| && !IsSpace(value[i]) && (0 < i ==> !(value[i - 1].Word? && value[i].Word?))
    ensures IsMatch(value, Span(i, i + TokenLen(value[i..])))
  {
    hide Tokens, WordLen;
    var rest := value[i..];
    var n := TokenLen(rest);
    WordLenIsWord(rest);
    TokenEnds(rest);
    assert forall k :: i <= k < i + n ==> value[k] == rest[k - i];
    if i + n < |value| { assert value[i + n] == rest[n] && value[i + n - 1] == rest[n - 1]; }
  }

  lemma {:induction false} MatchShape(value: Str, from: nat, done: nat, k: nat)
    requires Remaining(value, from, done) && k < |Matches(value, from)|
    ensures var m := Matches(value, from)[k];
            && from <= m.from && IsMatch(value, m)
            && done + k < |Tokens(value)| && value[m.from..m.to] == Tokens(value)[done + k]
            && (k + 1 < |Matches(value, from)| ==> m.to <= Matches(value, from)[k + 1].from)
    decreases |value| - from
  {
    hide Tokens, TokenLen, IsMatch;
    if IsSpace(value[from]) {
      StepOverSpace(value, from, done);
      MatchShape(value, from + 1, done, k);
    } else {
      StepOverToken(value, from, done);
      FirstMatch(value, from, done);
      var next := from + TokenLen(value[from..]);
      if k > 0 {
        MatchShape(value, next, done + 1, k - 1);
      } else if |Matches(value, from)| > 1 {
        MatchShape(value, next, done + 1, 0);
      }
    }
  }

  /** Whatever is not white space lies in a match. */
  lemma {:induction false} InSomeMatch(value: Str, from: nat, i: nat) returns (k: nat)
    requires from <= i < |value| && !IsSpace(value[i])
    ensures k < |Matches(value, from)| && Matches(value, from)[k].from <= i < Matches(value, from)[k].to
    decreases |value| - from
  {
    hide TokenLen;
    if IsSpace(value[from]) {
      k := InSomeMatch(value, from + 1, i);
    } else {
      var to := from + TokenLen(value[from..]);
      if i < to {
        k := 0;
      } else {
        k := InSomeMatch(value, to, i);
        k := k + 1;
      }
    }
  }

  /** The matches of the pattern: words and single marks, in order, with nothing but white space around them. */
  ghost predicate AreMatches(value: Str, matches: seq<Span>) {
    && |matches| == |Tokens(value)|
    && (forall k :: 0 <= k < |matches| ==>
          IsMatch(value, matches[k]) && value[matches[k].from..matches[k].to] == Tokens(value)[k])
    && (forall k :: 0 <= k < |matches| - 1 ==> matches[k].to <= matches[k + 1].from)
    && (forall i :: 0 <= i < |value| && !IsSpace(value[i]) ==>
          exists k :: 0 <= k < |matches| && matches[k].from <= i < matches[k].to)
  }

  lemma MatchesAre(value: Str)
    ensures AreMatches(value, Matches(value, 0))
  {
    hide Tokens, Matches, Remaining;
    var matches := Matches(value, 0);
    MatchAt(value, 0);
    assert Remaining(value, 0, 0) by { FromTheStart(value); }
    forall k | 0 <= k < |matches|
      ensures IsMatch(value, matches[k]) && value[matches[k].from..matches[k].to] == Tokens(value)[k]
      ensures k < |matches| - 1 ==> matches[k].to <= matches[k + 1].from
    {
      MatchShape(value, 0, 0, k);
    }
    forall i | 0 <= i < |value| && !IsSpace(value[i])
      ensures exists k :: 0 <= k < |matches| && matches[k].from <= i < matches[k].to
    {
      var k := InSomeMatch(value, 0, i);
    }
  }

  lemma FromTheStart(value: Str)
    ensures Remaining(value, 0, 0)
  {
    assert value[0..] == value;
  }

  /** All matches of the token pattern, from left to right. */
  method FindIter(value: Str) returns (matches: seq<Span>)
    ensures matches == Matches(value, 0)
    ensures |matches| == |Tokens(value)|
    ensures AreMatches(value, matches)
  {
    hide *;
    matches := [];
    var i: nat := 0;
    while i < |value|
      invariant i <= |value|
      invariant matches + Matches(value, i) == Matches(value, 0)
    {
      MatchesFrom(value, i);
      if IsSpace(value[i]) {
        i := i + 1;
      } else {
        var m := Span(i, i + TokenLen(value[i..]));
        assert matches + ([m] + Matches(value, m.to)) == matches + [m] + Matches(value, m.to);
        matches := matches + [m];
        i := m.to;
      }
    }
    MatchesFrom(value, i);
    MatchAt(value, 0);
    MatchesAre(value);
  }

  /** The last `n` elements, or all of them when there are fewer. */
  function Last<T>(all: seq<T>, n: int): seq<T> {
    if n <= 0 then [] else if |all| <= n then all else all[|all| - n..]
  }

  lemma TokensFromMatch(value: Str, k: nat)
    requires |Matches(value, 0)| == |Tokens(value)| && k < |Tokens(value)|
    ensures Matches(value, 0)[k].from <= |value|
    ensures Tokens(Strip(value[Matches(value, 0)[k].from..])) == Tokens(value)[k..]
  {
    hide Tokens;
    MatchAt(value, k);
    TokensStrip(value[Matches(value, 0)[k].from..]);
  }

  /** A place where a match begins, or the text. */
  ghost predicate Begins(value: Str, i: nat) {
    i == 0 || exists k :: 0 <= k < |Matches(value, 0)| && Matches(value, 0)[k].from == i
  }

  /** A place where a match ends, or the text. */
  ghost predicate Ends(value: Str, j: nat) {
    j == |value| || exists k :: 0 <= k < |Matches(value, 0)| && Matches(value, 0)[k].to == j
  }

  /** The text from a match to another, as it stands there, without white space at its ends. */
  ghost predicate IsStretch(value: Str, part: Str) {
    exists i, j :: 0 <= i <= j <= |value| && Begins(value, i) && Ends(value, j) && part == Strip(value[i..j])
  }

  ghost predicate IsTail(value: Str, maximum: nat, r: Str) {
    if maximum == 0 then r == [] else IsStretch(value, r) && Tokens(r) == Last(Tokens(value), maximum)
  }

  lemma StretchIs(value: Str, i: nat, j: nat)
    requires i <= j <= |value| && Begins(value, i) && Ends(value, j)
    ensures IsStretch(value, Strip(value[i..j]))
  {
  }

  lemma MatchBegins(value: Str, k: nat)
    requires k < |Matches(value, 0)|
    ensures Begins(value, Matches(value, 0)[k].from) && Ends(value, Matches(value, 0)[k].to)
  {
  }

  lemma WholeStretch(value: Str)
    ensures Begins(value, 0) && Ends(value, |value|)
    ensures IsStretch(value, Strip(value))
  {
    assert value[0..|value|] == value;
    StretchIs(value, 0, |value|);
  }

  /** ApproximateTokenCounter.tail: the last `maximum` tokens of the text, and no other, as they stand in it. */
  method Tail(value: Str, maximum: int) returns (r: Str)
    ensures Tokens(r) == Last(Tokens(value), maximum)
    ensures IsTail(value, if maximum > 0 then maximum else 0, r)
  {
    hide *;
    if maximum <= 0 {
      NoTail(value, maximum);
      return [];
    }
    var matches := FindIter(value);
    if |matches| <= maximum {
      WholeTail(value, maximum);
      return Strip(value);
    }
    TailFrom(value, maximum);
    var from := matches[|matches| - maximum].from;
    r := Strip(value[from..]);
  }

  lemma NoTail(value: Str, maximum: int)
    requires maximum <= 0
    ensures Tokens([]) == Last(Tokens(value), maximum) && IsTail(value, 0, [])
  {
  }

  lemma WholeTail(value: Str, maximum: nat)
    requires 0 < maximum && |Tokens(value)| <= maximum
    ensures Tokens(Strip(value)) == Last(Tokens(value), maximum) && IsTail(value, maximum, Strip(value))
  {
    hide Tokens, Strip, IsStretch;
    TokensStrip(value);
    WholeStretch(value);
  }

  lemma TailFrom(value: Str, maximum: nat)
    requires 0 < maximum < |Tokens(value)| == |Matches(value, 0)|
    ensures var from := Matches(value, 0)[|Tokens(value)| - maximum].from;
            && from <= |value| && Tokens(Strip(value[from..])) == Last(Tokens(value), maximum)
            && IsTail(value, maximum, Strip(value[from..]))
  {
    hide Tokens, Strip, Matches, IsStretch, Begins, Ends;
    var k := |Tokens(value)| - maximum;
    TokensFromMatch(value, k);
    MatchBegins(value, k);
    WholeStretch(value);
    var from := Matches(value, 0)[k].from;
    StretchIs(value, from, |value|);
    assert value[from..] == value[from..|value|];
  }

  // ---------- splitting by token count ----------

  lemma TokensSplitAt(value: Str, i: nat, j: nat)
    requires i <= j <= |value|
    requires 0 < j < |value| ==> !(value[j - 1].Word? && value[j].Word?)
    ensures Tokens(value[i..]) == Tokens(value[i..j]) + Tokens(value[j..])
  {
    hide Tokens;
    var a, b := value[i..j], value[j..];
    if a != [] && b != [] {
      assert a[|a| - 1] == value[j - 1] && b[0] == value[j];
    }
    TokensConcat(a, b);
    assert value[i..] == a + b;
  }

  lemma TokensBetween(value: Str, p: nat, q: nat, i: nat, j: nat)
    requires i <= j && p <= q && Remaining(value, i, p) && Remaining(value, j, q)
    ensures Tokens(value[i..j]) == Tokens(value)[p..q]
  {
    hide Tokens;
    TokensSplitAt(value, i, j);
    PrefixOfSum(Tokens(value[i..j]), Tokens(value[j..]), Tokens(value), p, q);
  }

  lemma PrefixOfSum<T>(a: seq<T>, b: seq<T>, all: seq<T>, p: nat, q: nat)
    requires p <= q <= |all| && a + b == all[p..] && b == all[q..]
    ensures a == all[p..q]
  {
    assert all[p..] == all[p..q] + all[q..];
    assert a == (a + b)[..q - p];
  }

  /** Dropping a character never yields more tokens. */
  lemma TokensTail(s: Str)
    requires s != []
    ensures |Tokens(s[1..])| <= |Tokens(s)|
  {
    if s[0].Word? && |s| > 1 && s[1].Word? {
      assert s[1..][WordLen(s[1..])..] == s[WordLen(s)..];
    } else if !IsSpace(s[0]) {
      assert s[0].Word? ==> WordLen(s[1..]) == 0;
      assert TokenLen(s) == 1;
    }
  }

  lemma {:induction false} TokensSuffix(value: Str, i: nat, j: nat)
    requires i <= j <= |value|
    ensures |Tokens(value[j..])| <= |Tokens(value[i..])|
    decreases j - i
  {
    if i < j {
      TokensSuffix(value, i + 1, j);
      assert value[i..][1..] == value[i + 1..];
      TokensTail(value[i..]);
    }
  }

  lemma FewerRemain(value: Str, i: nat, p: nat, j: nat, q: nat)
    requires Remaining(value, i, p) && Remaining(value, j, q) && p < q
    ensures i <= j
  {
    hide Tokens;
    if j < i {
      TokensSuffix(value, j, i);
    }
  }

  /** `parts` hold the first `done` tokens of the text, `maximum` in each. */
  ghost predicate Cut(value: Str, parts: seq<Str>, done: nat, maximum: nat) {
    && done <= |Tokens(value)|
    && AllTokens(parts) == Tokens(value)[..done]
    && forall p :: 0 <= p < |parts| ==> |Tokens(parts[p])| == maximum
  }

  lemma CutOne(value: Str, parts: seq<Str>, part: Str, done: nat, maximum: nat)
    requires Cut(value, parts, done, maximum) && done + maximum <= |Tokens(value)|
    requires Tokens(part) == Tokens(value)[done..done + maximum]
    ensures Cut(value, parts + [part], done + maximum, maximum)
  {
    hide Tokens;
    AllTokensSnoc(parts, part);
    var all := Tokens(value);
    assert all[..done] + all[done..done + maximum] == all[..done + maximum];
  }

  lemma CutNext(value: Str, parts: seq<Str>, start: nat, done: nat, maximum: nat)
    requires maximum > 0 && Remaining(value, start, done) && Cut(value, parts, done, maximum)
    requires |Matches(value, 0)| == |Tokens(value)| && done + maximum < |Tokens(value)|
    ensures var end := Matches(value, 0)[done + maximum - 1].to;
            && start <= end <= |value|
            && Cut(value, parts + [Strip(value[start..end])], done + maximum, maximum)
    ensures Matches(value, 0)[done + maximum].from <= |value|
    ensures Remaining(value, Matches(value, 0)[done + maximum].from, done + maximum)
  {
    hide Tokens, Matches, Strip, Cut;
    MatchAt(value, done + maximum - 1);
    MatchAt(value, done + maximum);
    var end := Matches(value, 0)[done + maximum - 1].to;
    FewerRemain(value, start, done, end, done + maximum);
    TokensBetween(value, done, done + maximum, start, end);
    TokensStrip(value[start..end]);
    CutOne(value, parts, Strip(value[start..end]), done, maximum);
  }

  lemma CutRest(value: Str, parts: seq<Str>, start: nat, done: nat, maximum: nat)
    requires Remaining(value, start, done) && Cut(value, parts, done, maximum)
    ensures AllTokens(parts + [Strip(value[start..])]) == Tokens(value)
    ensures Tokens(Strip(value[start..])) == Tokens(value)[done..]
  {
    hide Tokens;
    TokensStrip(value[start..]);
    AllTokensSnoc(parts, Strip(value[start..]));
    var all := Tokens(value);
    assert all[..done] + all[done..] == all;
  }

  lemma NothingCut(value: Str, maximum: nat)
    ensures Remaining(value, 0, 0) && Cut(value, [], 0, maximum) && AllTokens([]) == []
  {
    hide Tokens;
    assert value[0..] == value;
  }

  lemma NoText(s: Str)
    ensures s == [] ==> Tokens(s) == []
  {
  }

  ghost predicate IsSplit(value: Str, parts: seq<Str>, maximum: nat) {
    && AllTokens(parts) == Tokens(value)
    && (forall p :: 0 <= p < |parts| ==> 0 < |Tokens(parts[p])| <= maximum)
    && (forall p :: 0 <= p < |parts| - 1 ==> |Tokens(parts[p])| == maximum)
  }

  /** The rest of the text is the last part, unless it is blank. */
  lemma LastPart(value: Str, parts: seq<Str>, start: nat, done: nat, maximum: nat)
    requires maximum > 0 && Remaining(value, start, done) && Cut(value, parts, done, maximum)
    requires |Tokens(value)| - done <= maximum && done < |Tokens(value)|
    ensures var tail := Strip(value[start..]);
            IsSplit(value, if tail == [] then parts else parts + [tail], maximum)
  {
    hide Tokens, AllTokens, Strip;
    var tail := Strip(value[start..]);
    CutRest(value, parts, start, done, maximum);
    NoText(tail);
    assert |Tokens(tail)| == |Tokens(value)| - done;
  }

  lemma NothingToSplit(value: Str, maximum: nat)
    requires |Tokens(value)| == 0
    ensures IsSplit(value, [], maximum)
  {
  }

  /** ApproximateTokenCounter.split: consecutive runs of `maximum` tokens as they stand in the text, nothing lost
      between them. The program refuses a maximum that is not positive. */
  method Split(value: Str, maximum: int) returns (parts: seq<Str>)
    requires maximum > 0
    ensures AllTokens(parts) == Tokens(value)
    ensures forall p :: 0 <= p < |parts| ==> 0 < |Tokens(parts[p])| <= maximum
    ensures forall p :: 0 <= p < |parts| - 1 ==> |Tokens(parts[p])| == maximum
    ensures forall p :: 0 <= p < |parts| ==> IsStretch(value, parts[p])
  {
    hide Tokens, Strip, Matches, AllTokens, Cut, Remaining, AreMatches, IsStretch, Begins, Ends;
    var matches := FindIter(value);
    parts := [];
    NothingCut(value, maximum);
    if matches == [] {
      NothingToSplit(value, maximum);
      return;
    }
    var start: nat := 0;
    WholeStretch(value);
    var offset := maximum;
    while offset < |matches|
      invariant maximum <= offset && offset - maximum < |matches| && start <= |value| && Begins(value, start)
      invariant Remaining(value, start, offset - maximum)
      invariant Cut(value, parts, offset - maximum, maximum)
      invariant forall p :: 0 <= p < |parts| ==> IsStretch(value, parts[p])
    {
      CutNext(value, parts, start, offset - maximum, maximum);
      var end := matches[offset - 1].to;
      MatchBegins(value, offset - 1);
      MatchBegins(value, offset);
      StretchIs(value, start, end);
      parts := parts + [Strip(value[start..end])];
      start := matches[offset].from;
      offset := offset + maximum;
    }
    var tail := Strip(value[start..]);
    LastPart(value, parts, start, offset - maximum, maximum);
    if tail != [] {
      StretchIs(value, start, |value|);
      assert value[start..] == value[start..|value|];
      parts := parts + [tail];
    }
  }
}
