/** The reader of the answer stream: text arrives in pieces cut anywhere, and is split into event blocks at
    blank lines. */
module EventStream {

  datatype Char = CR | LF | Space | Other(code: nat)

  type Text = seq<Char>

  // ---------- the delimiter, \r?\n\r?\n ----------

  predicate IsLineFeed(s: Text, i: nat) {
    i < |s| && s[i] == LF
  }

  /** \r?\n at position i: where it ends, or i when it does not match. */
  function LineEnd(s: Text, i: nat): (end: nat)
    ensures end == i || (i < end <= i + 2 && end <= |s|)
  {
    if IsLineFeed(s, i) then i + 1
    else if i < |s| && s[i] == CR && IsLineFeed(s, i + 1) then i + 2
    else i
  }

  /** Where the delimiter that starts at i ends, or i when there is none. */
  function DelimiterEnd(s: Text, i: nat): (end: nat)
    ensures end == i || (i + 2 <= end <= i + 4 && end <= |s|)
  {
    var first := LineEnd(s, i);
    if first == i then i
    else
      var second := LineEnd(s, first);
      if second == first then i else second
  }

  predicate Delimits(s: Text, i: nat) {
    DelimiterEnd(s, i) > i
  }

  predicate Undelimited(s: Text) {
    forall i {:trigger Delimits(s, i)} :: 0 <= i < |s| ==> !Delimits(s, i)
  }

  /** The leftmost match, or |s|. */
  function First(s: Text, start: nat): (i: nat)
    requires start <= |s|
    ensures start <= i <= |s|
    ensures i < |s| ==> Delimits(s, i)
    ensures forall j {:trigger Delimits(s, j)} :: start <= j < i ==> !Delimits(s, j)
    decreases |s| - start
  {
    if start == |s| || Delimits(s, start) then start else First(s, start + 1)
  }

  /** The text cut at every blank line, from left to right. */
  function Split(s: Text): (parts: seq<Text>)
    ensures parts != []
    decreases |s|
  {
    var i := First(s, 0);
    if i == |s| then [s] else [s[..i]] + Split(s[DelimiterEnd(s, i)..])
  }

  // ---------- what a split is ----------

  predicate IsDelimiter(d: Text) {
    d in {[LF, LF], [CR, LF, LF], [LF, CR, LF], [CR, LF, CR, LF]}
  }

  function Joined(parts: seq<Text>, delimiters: seq<Text>): Text
    requires |parts| == |delimiters| + 1
  {
    if delimiters == [] then parts[0]
    else parts[0] + delimiters[0] + Joined(parts[1..], delimiters[1..])
  }

  /** One of the four forms of a blank line stands at position i. */
  predicate BlankLineAt(s: Text, i: nat) {
    || (i + 2 <= |s| && s[i..i + 2] == [LF, LF])
    || (i + 3 <= |s| && (s[i..i + 3] == [CR, LF, LF] || s[i..i + 3] == [LF, CR, LF]))
    || (i + 4 <= |s| && s[i..i + 4] == [CR, LF, CR, LF])
  }

  lemma DelimitsIff(s: Text, i: nat)
    ensures Delimits(s, i) <==> BlankLineAt(s, i)
  {
    if i + 2 <= |s| { assert s[i..i + 2] == [s[i], s[i + 1]]; }
    if i + 3 <= |s| { assert s[i..i + 3] == [s[i], s[i + 1], s[i + 2]]; }
    if i + 4 <= |s| { assert s[i..i + 4] == [s[i], s[i + 1], s[i + 2], s[i + 3]]; }
  }

  lemma NoBlankLines(s: Text)
    requires Undelimited(s)
    ensures forall i :: 0 <= i < |s| ==> !BlankLineAt(s, i)
  {
    forall i | 0 <= i < |s| ensures !BlankLineAt(s, i) {
      DelimitsIff(s, i);
      assert !Delimits(s, i);
    }
  }

  /** No blank line begins before the one that was found, not even one that runs into it. */
  lemma FirstIsLeftmost(s: Text, i: nat, end: nat)
    requires i <= end <= |s| && forall j {:trigger Delimits(s, j)} :: 0 <= j < i ==> !Delimits(s, j)
    ensures forall j :: 0 <= j < i ==> !BlankLineAt(s[..i] + s[i..end], j)
  {
    assert s[..i] + s[i..end] == s[..end];
    forall j | 0 <= j < i ensures !BlankLineAt(s[..end], j) {
      DelimitsIff(s, j);
      assert !Delimits(s, j);
      PartHasNone(s, end, j);
    }
  }

  lemma PartHasNone(s: Text, end: nat, j: nat)
    requires end <= |s| && !BlankLineAt(s, j)
    ensures !BlankLineAt(s[..end], j)
  {
    if j + 2 <= end { assert s[..end][j..j + 2] == s[j..j + 2]; }
    if j + 3 <= end { assert s[..end][j..j + 3] == s[j..j + 3]; }
    if j + 4 <= end { assert s[..end][j..j + 4] == s[j..j + 4]; }
  }

  lemma DelimiterText(s: Text, i: nat)
    requires i < |s| && Delimits(s, i)
    ensures IsDelimiter(s[i..DelimiterEnd(s, i)])
  {
    var d := s[i..DelimiterEnd(s, i)];
    assert forall k :: 0 <= k < |d| ==> d[k] == s[i + k];
    assert d == [LF, LF] || d == [CR, LF, LF] || d == [LF, CR, LF] || d == [CR, LF, CR, LF];
  }

  lemma PrefixUndelimited(s: Text, i: nat)
    requires i <= |s| && forall j {:trigger Delimits(s, j)} :: 0 <= j < i ==> !Delimits(s, j)
    ensures Undelimited(s[..i])
  {
    forall j {:trigger Delimits(s[..i], j)} | 0 <= j < i ensures !Delimits(s[..i], j) {
      assert !Delimits(s, j);
    }
  }

  /** The parts hold no blank line, with the blank lines between them they are the whole text, and each of these
      is the leftmost. */
  lemma {:induction false} SplitIsExact(s: Text) returns (delimiters: seq<Text>)
    ensures |Split(s)| == |delimiters| + 1 && Joined(Split(s), delimiters) == s
    ensures forall k :: 0 <= k < |delimiters| ==> IsDelimiter(delimiters[k])
    ensures forall k :: 0 <= k < |Split(s)| ==> Undelimited(Split(s)[k])
    ensures forall k, i :: 0 <= k < |Split(s)| && 0 <= i < |Split(s)[k]| ==> !BlankLineAt(Split(s)[k], i)
    ensures forall k, i :: 0 <= k < |delimiters| && 0 <= i < |Split(s)[k]| ==>
              !BlankLineAt(Split(s)[k] + delimiters[k], i)
    decreases |s|
  {
    hide Delimits, Undelimited, IsDelimiter, DelimiterEnd, BlankLineAt;
    var i := First(s, 0);
    PrefixUndelimited(s, i);
    NoBlankLines(s[..i]);
    PrefixUndelimited(s, i);
    if i == |s| {
      assert s[..i] == s;
      delimiters := [];
    } else {
      var end := DelimiterEnd(s, i);
      assert end > i by { EndIsLater(s, i); }
      DelimiterText(s, i);
      FirstIsLeftmost(s, i, end);
      var rest := SplitIsExact(s[end..]);
      delimiters := [s[i..end]] + rest;
      assert s == s[..i] + s[i..end] + s[end..];
      assert Split(s)[1..] == Split(s[end..]) && delimiters[1..] == rest;
    }
  }

  lemma EndIsLater(s: Text, i: nat)
    requires Delimits(s, i)
    ensures DelimiterEnd(s, i) > i
  {
  }

  // ---------- a match does not depend on what comes after it ----------

  /** A match inside a stays where it is when more text arrives. */
  lemma MatchStays(a: Text, b: Text, i: nat)
    requires Delimits(a, i)
    ensures DelimiterEnd(a + b, i) == DelimiterEnd(a, i)
  {
  }

  /** Nor does the new text complete a match that starts earlier. */
  lemma NoEarlierMatch(a: Text, b: Text, i: nat, j: nat)
    requires Delimits(a, i) && j < i && !Delimits(a, j)
    ensures !Delimits(a + b, j)
  {
    if j + 1 < i {
      assert forall k :: 0 <= k < |a| ==> (a + b)[k] == a[k];
    }
  }

  lemma FirstStays(a: Text, b: Text)
    requires First(a, 0) < |a|
    ensures First(a + b, 0) == First(a, 0)
  {
    hide Delimits, DelimiterEnd;
    var i := First(a, 0);
    forall j {:trigger Delimits(a + b, j)} | 0 <= j < i ensures !Delimits(a + b, j) {
      NoEarlierMatch(a, b, i, j);
    }
    StillDelimits(a, b, i);
  }

  lemma StillDelimits(a: Text, b: Text, i: nat)
    requires Delimits(a, i)
    ensures Delimits(a + b, i)
  {
    MatchStays(a, b, i);
  }

  /** Splitting what has arrived, keeping the last part, and splitting it again with the next piece gives
      the parts of the whole text: also when the cut falls inside \r\n or inside a blank line. */
  lemma {:induction false} SplitInTwo(a: Text, b: Text)
    ensures var parts := Split(a);
            var last := |parts| - 1;
            Split(a + b) == parts[..last] + Split(parts[last] + b)
    decreases |a|
  {
    hide First, Delimits, DelimiterEnd;
    var i := First(a, 0);
    if i < |a| {
      var end := DelimiterEnd(a, i);
      EndIsLater(a, i);
      var rest := Split(a[end..]);
      SplitInTwo(a[end..], b);
      FirstStays(a, b);
      MatchStays(a, b, i);
      assert (a + b)[..i] == a[..i] && (a + b)[end..] == a[end..] + b;
      assert Split(a)[|Split(a)| - 1] == rest[|rest| - 1];
      assert Split(a)[..|Split(a)| - 1] == [a[..i]] + rest[..|rest| - 1];
    }
  }

  // ---------- the read loop ----------

  function Concat(pieces: seq<Text>): Text {
    if pieces == [] then [] else Concat(pieces[..|pieces| - 1]) + pieces[|pieces| - 1]
  }

  /** Nothing but white space is left. */
  predicate IsBlank(s: Text) {
    forall k :: 0 <= k < |s| ==> !s[k].Other?
  }

  lemma BlankIff(s: Text)
    ensures !IsBlank(s) <==> exists k :: 0 <= k < |s| && s[k].Other?
  {
  }

  /** Every block that `handle` should see for this text. */
  function Blocks(s: Text): seq<Text> {
    var parts := Split(s);
    var last := |parts| - 1;
    if IsBlank(parts[last]) then parts[..last] else parts
  }

  class Reader {
    var buffer: Text
    var handled: seq<Text>

    constructor ()
      ensures buffer == [] && handled == []
    {
      buffer, handled := [], [];
    }

    ghost predicate HasRead(s: Text)
      reads this
    {
      handled + [buffer] == Split(s)
    }

    /** One read: append, split, keep the last part, handle the others in order. */
    method Feed(piece: Text, ghost before: Text)
      requires HasRead(before)
      modifies this
      ensures HasRead(before + piece)
      ensures old(handled) <= handled
    {
      hide Split;
      ghost var was := buffer;
      buffer := buffer + piece;
      var blocks := Split(buffer);
      buffer := blocks[|blocks| - 1];
      var i := 0;
      while i < |blocks| - 1
        invariant 0 <= i <= |blocks| - 1
        invariant buffer == blocks[|blocks| - 1] && handled == old(handled) + blocks[..i]
      {
        handled := handled + [blocks[i]];
        i := i + 1;
      }
      SplitInTwo(before, piece);
      var whole := Split(before);
      assert whole[|whole| - 1] == was && whole[..|whole| - 1] == old(handled);
      assert blocks[..i] + [buffer] == blocks;
    }

    /** The rest is handled unless it is blank. */
    method Finish(ghost s: Text)
      requires HasRead(s)
      modifies this`handled
      ensures handled == Blocks(s)
      ensures handled ==
              if exists k :: 0 <= k < |buffer| && buffer[k].Other? then old(handled) + [buffer] else old(handled)
    {
      hide Split;
      ghost var parts := Split(s);
      assert parts[|parts| - 1] == buffer && parts[..|parts| - 1] == handled;
      BlankIff(buffer);
      if exists k :: 0 <= k < |buffer| && buffer[k].Other? {
        handled := handled + [buffer];
      }
      BlankIff(buffer);
    }

    /** The whole stream, however it was chopped. */
    method ReadAll(pieces: seq<Text>)
      requires buffer == [] && handled == []
      modifies this
      ensures handled == Blocks(Concat(pieces))
      ensures var parts := Split(Concat(pieces));
              var last := parts[|parts| - 1];
              handled == if exists k :: 0 <= k < |last| && last[k].Other? then parts else parts[..|parts| - 1]
    {
      hide Blocks, Split;
      SplitEmpty();
      for n := 0 to |pieces|
        invariant HasRead(Concat(pieces[..n]))
      {
        assert pieces[..n + 1][..n] == pieces[..n];
        Feed(pieces[n], Concat(pieces[..n]));
      }
      assert pieces[..|pieces|] == pieces;
      ghost var parts := Split(Concat(pieces));
      assert handled == parts[..|parts| - 1] && buffer == parts[|parts| - 1] && parts == handled + [buffer];
      Finish(Concat(pieces));
      assert buffer == parts[|parts| - 1];
      BlankIff(buffer);
      assert handled == if IsBlank(buffer) then parts[..|parts| - 1] else parts;
    }
  }

  lemma SplitEmpty()
    ensures Split([]) == [[]]
  {
  }
}
