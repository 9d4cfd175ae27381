/** Text as the chunker's regular expressions see it: a sequence of characters,
    each carrying its class and its code point. */
module Text {

  datatype Ch =
    | Word(code: nat)   // \w
    | Mark(code: nat)   // neither \w nor \s, other than the backtick
    | Tick              // the backtick
    | Blank(code: nat)  // \s that does not end a line
    | CR
    | LF

  type Str = seq<Ch>

  predicate IsSpace(c: Ch) {
    c.Blank? || c.CR? || c.LF?
  }

  /** Text without the white space at its ends, and the two halves of that. */
  function LeftStrip(s: Str): (r: Str)
    ensures r == [] || !IsSpace(r[0])
  {
    if s != [] && IsSpace(s[0]) then LeftStrip(s[1..]) else s
  }

  function RightStrip(s: Str): (r: Str)
    ensures r == [] || (!IsSpace(r[|r| - 1]) && s != [] && r[0] == s[0])
  {
    if s != [] && IsSpace(s[|s| - 1]) then RightStrip(s[..|s| - 1]) else s
  }

  function Strip(s: Str): (r: Str)
    ensures r == [] || (!IsSpace(r[0]) && !IsSpace(r[|r| - 1]))
  {
    RightStrip(LeftStrip(s))
  }

  /** The parts with the separator between them. */
  function Join(parts: seq<Str>, sep: Str): Str {
    if parts == [] then []
    else if |parts| == 1 then parts[0]
    else Join(parts[..|parts| - 1], sep) + sep + parts[|parts| - 1]
  }

  lemma JoinSnoc(parts: seq<Str>, sep: Str, last: Str)
    requires parts != []
    ensures Join(parts + [last], sep) == Join(parts, sep) + sep + last
  {
    assert (parts + [last])[..|parts|] == parts;
  }

  lemma {:induction false} JoinCons(first: Str, rest: seq<Str>, sep: Str)
    requires rest != []
    ensures Join([first] + rest, sep) == first + sep + Join(rest, sep)
  {
    var parts := [first] + rest;
    if |rest| == 1 {
      assert parts[..1] == [first];
    } else {
      var front := rest[..|rest| - 1];
      assert parts[..|parts| - 1] == [first] + front;
      JoinCons(first, front, sep);
    }
  }

  /** Index of the first line feed, or the length of `s`. */
  function LineEnd(s: Str): (n: nat)
    ensures n <= |s|
    ensures n < |s| ==> s[n] == LF
    ensures LF !in s[..n]
  {
    if s == [] then 0
    else if s[0] == LF then 0
    else
      var n := 1 + LineEnd(s[1..]);
      assert s[..n] == [s[0]] + s[1..][..n - 1];
      n
  }

  /** The lines of a text whose only line break is the line feed. */
  function Lines(s: Str): (r: seq<Str>)
    ensures forall i :: 0 <= i < |r| ==> LF !in r[i]
    decreases |s|
  {
    if s == [] then []
    else
      var n := LineEnd(s);
      if n == |s| then [s] else [s[..n]] + Lines(s[n + 1..])
  }

  /** A line feed after text that does not end in one starts a new line. */
  lemma {:induction false} LinesConcat(a: Str, b: Str)
    requires a != [] && a[|a| - 1] != LF
    ensures Lines(a + [LF] + b) == Lines(a) + Lines(b)
    decreases |a|
  {
    hide Lines, LineEnd;
    var e, s := LineEnd(a), a + [LF] + b;
    LinesStep(a);
    LinesStep(s);
    LineEndIs(s, e);
    if e == |a| {
      assert s[..e] == a && s[e + 1..] == b;
    } else {
      assert s[..e] == a[..e] && s[e + 1..] == a[e + 1..] + [LF] + b;
      LinesConcat(a[e + 1..], b);
    }
  }

  lemma LinesStep(s: Str)
    requires s != []
    ensures LineEnd(s) == |s| ==> Lines(s) == [s]
    ensures LineEnd(s) < |s| ==> Lines(s) == [s[..LineEnd(s)]] + Lines(s[LineEnd(s) + 1..])
  {
    hide LineEnd;
    assert s[..|s|] == s;
  }

  lemma {:induction false} LineEndIs(s: Str, e: nat)
    requires e < |s| && s[e] == LF && LF !in s[..e]
    ensures LineEnd(s) == e
  {
    if e > 0 {
      assert s[..e] == [s[0]] + s[1..][..e - 1];
      LineEndIs(s[1..], e - 1);
    }
  }

  /** Every line ending becomes a line feed. */
  function NormalizeNewlines(s: Str): Str
    decreases |s|
  {
    if s == [] then []
    else if s[0] == CR then
      [LF] + NormalizeNewlines(if |s| > 1 && s[1] == LF then s[2..] else s[1..])
    else [s[0]] + NormalizeNewlines(s[1..])
  }

  lemma {:induction false} NormalizeConcat(a: Str, b: Str)
    requires CR !in a
    ensures NormalizeNewlines(a + b) == a + NormalizeNewlines(b)
  {
    if a == [] {
      assert a + b == b;
    } else {
      assert (a + b)[1..] == a[1..] + b;
      NormalizeConcat(a[1..], b);
    }
  }

  /** A line with any ending is the line with a line feed, and what follows is treated alike. */
  lemma OneLineNormalized(line: Str, ending: Str, rest: Str)
    requires CR !in line && (ending == [LF] || ending == [CR, LF] || (ending == [CR] && (rest == [] || rest[0] != LF)))
    ensures NormalizeNewlines(line + ending + rest) == line + [LF] + NormalizeNewlines(rest)
    ensures NormalizeNewlines([]) == []
  {
    hide NormalizeNewlines;
    NormalizeConcat(line, ending + rest);
    assert line + ending + rest == line + (ending + rest);
    EndingNormalized(ending, rest);
  }

  lemma EndingNormalized(ending: Str, rest: Str)
    requires ending == [LF] || ending == [CR, LF] || (ending == [CR] && (rest == [] || rest[0] != LF))
    ensures NormalizeNewlines(ending + rest) == [LF] + NormalizeNewlines(rest)
    ensures NormalizeNewlines([]) == []
  {
    var s := ending + rest;
    assert s[|ending|..] == rest;
  }

  /** Stripping takes white space off the two ends and nothing else. */
  lemma StripIsSlice(s: Str) returns (i: nat, j: nat)
    ensures i <= j <= |s| && Strip(s) == s[i..j]
    ensures forall k :: 0 <= k < i || j <= k < |s| ==> IsSpace(s[k])
  {
    i := LeftStripIsSlice(s);
    var n := RightStripIsSlice(s[i..]);
    j := i + n;
    assert s[i..][..n] == s[i..j];
    forall k | j <= k < |s| ensures IsSpace(s[k]) {
      assert s[k] == s[i..][k - i];
    }
  }

  lemma {:induction false} LeftStripIsSlice(s: Str) returns (i: nat)
    ensures i <= |s| && LeftStrip(s) == s[i..]
    ensures forall k :: 0 <= k < i ==> IsSpace(s[k])
  {
    if s != [] && IsSpace(s[0]) {
      i := LeftStripIsSlice(s[1..]);
      i := i + 1;
      assert forall k :: 1 <= k < i ==> s[k] == s[1..][k - 1];
    } else {
      i := 0;
    }
  }

  lemma {:induction false} RightStripIsSlice(s: Str) returns (n: nat)
    ensures n <= |s| && RightStrip(s) == s[..n]
    ensures forall k :: n <= k < |s| ==> IsSpace(s[k])
  {
    if s != [] && IsSpace(s[|s| - 1]) {
      n := RightStripIsSlice(s[..|s| - 1]);
      assert forall k :: n <= k < |s| - 1 ==> s[k] == s[..|s| - 1][k];
    } else {
      n := |s|;
    }
  }
}
