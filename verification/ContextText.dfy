/** The texts of an answer's context: what counts as the same text, shortening, the block of a source, and the
    escaping of citation marks. */
module ContextText {

  /** Chunk ids are numbered in the order of their string form. */
  datatype Passage = Passage(
    chunkId: nat, documentId: nat, title: string, tags: seq<string>, sectionType: string, text: string, rank: int)

  // ---------- text ----------

  predicate IsSpace(c: char) { c in {' ', '\t', '\n', '\r'} }

  predicate IsDigit(c: char) { '0' <= c <= '9' }

  function Folded(c: char): char {
    if 'A' <= c <= 'Z' then c - 'A' + 'a' else c
  }

  /** The words between white space, with their letters folded. */
  function Words(s: string): (words: seq<string>)
    ensures s != [] && !IsSpace(s[|s| - 1]) ==> words != []
  {
    if s == [] then []
    else
      var front, c := Words(s[..|s| - 1]), s[|s| - 1];
      if IsSpace(c) then front
      else if |s| >= 2 && !IsSpace(s[|s| - 2]) then front[..|front| - 1] + [front[|front| - 1] + [Folded(c)]]
      else front + [[Folded(c)]]
  }

  function Joined(parts: seq<string>, separator: string): string {
    if parts == [] then ""
    else if |parts| == 1 then parts[0]
    else Joined(parts[..|parts| - 1], separator) + separator + parts[|parts| - 1]
  }

  /** _dedup_text */
  function DedupText(text: string): string {
    Joined(Words(text), " ")
  }

  predicate Contains(longer: string, shorter: string) {
    exists i :: 0 <= i <= |longer| && OccursAt(longer, shorter, i)
  }

  predicate OccursAt(longer: string, shorter: string, i: int) {
    0 <= i <= |longer| - |shorter| && longer[i..i + |shorter|] == shorter
  }

  /** _overlaps: equal, or one of at least 80 characters inside the other */
  predicate Overlaps(value: string, previous: string) {
    || value == previous
    || (|value| <= |previous| && |value| >= 80 && Contains(previous, value))
    || (|previous| < |value| && |previous| >= 80 && Contains(value, previous))
  }

  function RStrip(s: string): (r: string)
    ensures |r| <= |s| && r == s[..|r|]
  {
    if s != [] && IsSpace(s[|s| - 1]) then RStrip(s[..|s| - 1]) else s
  }

  function LStrip(s: string): string {
    if s != [] && IsSpace(s[0]) then LStrip(s[1..]) else s
  }

  /** The last line feed before the end, or -1. */
  function RFind(s: string, end: nat): (i: int)
    requires end <= |s|
    ensures -1 <= i < end
  {
    if end == 0 then -1 else if s[end - 1] == '\n' then end - 1 else RFind(s, end - 1)
  }

  const SHORTENED := "\n… [фрагмент сокращён]"

  /** Where a text above the maximum is cut: at the last line feed of its beginning, unless that would take
      more than half of it. */
  function CutAt(text: string, maximum: nat): (cut: nat)
    requires |text| > maximum
    ensures cut <= maximum
  {
    var boundary := RFind(text, maximum);
    if boundary >= maximum / 2 then boundary else maximum
  }

  /** _truncate */
  function Truncate(text: string, maximum: nat): string {
    if |text| <= maximum then text else RStrip(text[..CutAt(text, maximum)]) + SHORTENED
  }

  /** What a text of at most `maximum` characters, or the beginning that is kept of a longer one, leaves free. */
  function Gap(text: string, maximum: nat): nat {
    maximum - (if |text| <= maximum then |text| else |RStrip(text[..CutAt(text, maximum)])|)
  }

  /** _tokens */
  function Tokens(text: string): nat {
    var n := (|text| + 3) / 4;
    if n > 1 then n else 1
  }

  function Decimal(n: nat): string {
    if n < 10 then [('0' as int + n) as char] else Decimal(n / 10) + [('0' as int + n % 10) as char]
  }

  /** What _source_block puts around the text. */
  function Header(citation: nat, p: Passage): string {
    "<source id=\"" + Decimal(citation) + "\">\nЦитата: [" + Decimal(citation) + "]\nЗаголовок: " + p.title
    + "\nТеги: " + Joined(p.tags, ", ") + "\nРаздел: " + p.sectionType + "\n<<<SOURCE_DATA>>>\n"
  }

  const FOOTER := "\n<<<END_SOURCE_DATA>>>\n</source>"

  function Block(citation: nat, p: Passage, text: string): string {
    Header(citation, p) + text + FOOTER
  }

  // ---------- citation marks ----------

  /** [d], [dd], [ddd] or [dddd] at position i */
  predicate IsMark(s: string, i: nat, digits: nat) {
    && 1 <= digits <= 4 && i + digits + 1 < |s| && s[i] == '[' && s[i + digits + 1] == ']'
    && forall k :: i < k <= i + digits ==> IsDigit(s[k])
  }

  predicate Opens(s: string, i: nat) {
    IsMark(s, i, 1) || IsMark(s, i, 2) || IsMark(s, i, 3) || IsMark(s, i, 4)
  }

  predicate Closes(s: string, i: nat) {
    || (i >= 2 && IsMark(s, i - 2, 1)) || (i >= 3 && IsMark(s, i - 3, 2))
    || (i >= 4 && IsMark(s, i - 4, 3)) || (i >= 5 && IsMark(s, i - 5, 4))
  }

  /** _escape_source_citations: a mark holds one bracket of each kind, so no two marks overlap. */
  function Escaped(s: string): string {
    seq(|s|, i requires 0 <= i < |s| => if Opens(s, i) then '〔' else if Closes(s, i) then '〕' else s[i])
  }

  ghost predicate Unmarked(s: string) {
    forall i: nat, digits: nat :: !IsMark(s, i, digits)
  }

  lemma EscapedIsUnmarked(s: string)
    ensures Unmarked(Escaped(s))
  {
    var e := Escaped(s);
    forall i: nat, digits: nat ensures !IsMark(e, i, digits) {
      if IsMark(e, i, digits) {
        MarkWasThere(s, i, digits);
        assert Opens(s, i);
        assert false;
      }
    }
  }

  lemma MarkWasThere(s: string, i: nat, digits: nat)
    requires IsMark(Escaped(s), i, digits)
    ensures IsMark(s, i, digits)
  {
    hide Opens, Closes;
    var e := Escaped(s);
    assert forall k :: 0 <= k < |s| && e[k] != '〔' && e[k] != '〕' ==> s[k] == e[k];
    forall k | i < k <= i + digits ensures IsDigit(s[k]) {
      assert IsDigit(e[k]);
    }
  }

  /** A mark in a shortened text lies within what was kept: the suffix neither ends nor makes one. */
  lemma MarkWasKept(kept: string, i: nat, digits: nat)
    requires IsMark(kept + SHORTENED, i, digits)
    ensures IsMark(kept, i, digits)
  {
    var t := kept + SHORTENED;
    assert forall k :: 0 <= k < |SHORTENED| ==> t[|kept| + k] == SHORTENED[k];
    assert i < |kept| by { MarkStartsInKept(kept, i, digits); }
    assert t[|kept|] == '\n';
    assert !(i < |kept| <= i + digits);
    assert |kept| != i + digits + 1;
    assert forall k :: i < k <= i + digits ==> kept[k] == t[k] && IsDigit(t[k]);
  }

  lemma MarkStartsInKept(kept: string, i: nat, digits: nat)
    requires IsMark(kept + SHORTENED, i, digits)
    ensures i < |kept|
  {
    var t := kept + SHORTENED;
    assert forall k :: 0 <= k < |SHORTENED| ==> t[|kept| + k] == SHORTENED[k];
    assert IsDigit(t[i + 1]);
    assert forall k :: 0 <= k < |SHORTENED| && SHORTENED[k] == '[' ==> k == 3;
    assert !IsDigit(SHORTENED[4]);
  }

  lemma PrefixIsUnmarked(text: string, n: nat)
    requires Unmarked(text) && n <= |text|
    ensures Unmarked(text[..n])
  {
    forall i: nat, digits: nat ensures !IsMark(text[..n], i, digits) {
      assert !IsMark(text, i, digits);
      assert forall k :: 0 <= k < n ==> text[..n][k] == text[k];
    }
  }

  /** Truncation keeps a beginning of the text and makes no new mark. */
  lemma TruncatedIsUnmarked(text: string, maximum: nat)
    requires Unmarked(text)
    ensures Unmarked(Truncate(text, maximum)) && |Truncate(text, maximum)| <= maximum + |SHORTENED|
  {
    hide IsMark, RFind;
    if |text| > maximum {
      var t := Truncate(text, maximum);
      var kept := t[..|t| - |SHORTENED|];
      assert t == kept + SHORTENED && kept == text[..|kept|];
      PrefixIsUnmarked(text, |kept|);
      forall i: nat, digits: nat ensures !IsMark(t, i, digits) {
        if IsMark(t, i, digits) {
          MarkWasKept(kept, i, digits);
          assert false;
        }
      }
    }
  }

  // ---------- what the functions above compute ----------

  /** The parts one after the other, with the separator between two of them. */
  ghost predicate Separated(whole: string, parts: seq<string>, separator: string)
    decreases |parts|
  {
    if parts == [] then whole == ""
    else if |parts| == 1 then whole == parts[0]
    else
      var last := parts[|parts| - 1];
      var cut := |whole| - |last|;
      && cut >= |separator| && whole[cut..] == last && whole[cut - |separator|..cut] == separator
      && Separated(whole[..cut - |separator|], parts[..|parts| - 1], separator)
  }

  lemma {:induction false} JoinedIsSeparated(parts: seq<string>, separator: string)
    ensures Separated(Joined(parts, separator), parts, separator)
  {
    if |parts| > 1 {
      var front, last := parts[..|parts| - 1], parts[|parts| - 1];
      JoinedIsSeparated(front, separator);
      var whole, before := Joined(parts, separator), Joined(front, separator);
      var cut := |whole| - |last|;
      assert whole[..cut - |separator|] == before;
    }
  }

  lemma WordsSnoc(s: string, x: char)
    ensures Words(s + [x]) ==
            if IsSpace(x) then Words(s)
            else if s != [] && !IsSpace(s[|s| - 1])
            then Words(s)[..|Words(s)| - 1] + [Words(s)[|Words(s)| - 1] + [Folded(x)]]
            else Words(s) + [[Folded(x)]]
  {
    var t := s + [x];
    assert t[..|t| - 1] == s;
    if s != [] { assert t[|t| - 2] == s[|s| - 1]; }
  }

  /** White space parts words. */
  lemma {:induction false} WordsSplit(a: string, c: char, b: string)
    requires IsSpace(c)
    ensures Words(a + [c] + b) == Words(a) + Words(b)
  {
    hide Words, IsSpace, Folded;
    if b == [] {
      WordsSnoc(a, c);
      NoWords();
      assert a + [c] + b == a + [c];
    } else {
      var front, x := b[..|b| - 1], b[|b| - 1];
      WordsSplit(a, c, front);
      assert b == front + [x] && a + [c] + b == (a + [c] + front) + [x];
      OneMoreCharacter(a + [c], c, front, x, Words(a));
    }
  }

  lemma OneMoreCharacter(before: string, c: char, front: string, x: char, words: seq<string>)
    requires before != [] && before[|before| - 1] == c && IsSpace(c)
    requires Words(before + front) == words + Words(front)
    ensures Words(before + front + [x]) == words + Words(front + [x])
  {
    hide Words, IsSpace, Folded;
    WordsSnoc(before + front, x);
    WordsSnoc(front, x);
    if front == [] {
      assert (before + front)[|before + front| - 1] == c;
      NoWords();
    } else {
      assert (before + front)[|before + front| - 1] == front[|front| - 1];
      if !IsSpace(front[|front| - 1]) { assert Words(front) != []; }
    }
  }

  lemma NoWords()
    ensures Words([]) == []
  {
  }

  /** Text without white space is one word, with the letters A to Z as small letters. */
  lemma {:induction false} WordsOne(s: string)
    requires s != [] && forall i :: 0 <= i < |s| ==> !IsSpace(s[i])
    ensures |Words(s)| == 1 && |Words(s)[0]| == |s| && Words([]) == []
    ensures forall i :: 0 <= i < |s| ==>
              Words(s)[0][i] as int == s[i] as int + (if 65 <= s[i] as int <= 90 then 32 else 0)
  {
    if |s| > 1 {
      WordsOne(s[..|s| - 1]);
    } else {
      assert s[..0] == [];
    }
  }

  /** Two texts overlap exactly when they are equal, or one of at least 80 characters stands in the other. */
  lemma OverlapsIff(value: string, previous: string)
    ensures Overlaps(value, previous) <==>
              || value == previous
              || (|value| >= 80 && exists a, b :: previous == a + value + b)
              || (|previous| >= 80 && exists a, b :: value == a + previous + b)
  {
    hide Overlaps;
    ContainsIff(previous, value);
    ContainsIff(value, previous);
    OverlapsBy(value, previous);
  }

  lemma OverlapsBy(value: string, previous: string)
    ensures Overlaps(value, previous) <==>
              || value == previous
              || (|value| >= 80 && Contains(previous, value))
              || (|previous| >= 80 && Contains(value, previous))
  {
    if |value| == |previous| && Contains(value, previous) {
      var i :| 0 <= i <= |value| && OccursAt(value, previous, i);
      SameLength(value, previous, i);
    }
  }

  lemma SameLength(value: string, previous: string, i: int)
    requires |value| == |previous| && OccursAt(value, previous, i)
    ensures value == previous
  {
    assert value[0..|previous|] == value;
  }

  lemma ContainsIff(longer: string, shorter: string)
    ensures Contains(longer, shorter) <==> exists a, b :: longer == a + shorter + b
  {
    hide OccursAt;
    if Contains(longer, shorter) {
      var i :| 0 <= i <= |longer| && OccursAt(longer, shorter, i);
      Parts(longer, shorter, i);
    }
    if a, b :| longer == a + shorter + b {
      Whole(a, shorter, b);
      assert OccursAt(longer, shorter, |a|);
    }
  }

  lemma Parts(longer: string, shorter: string, i: int)
    requires OccursAt(longer, shorter, i)
    ensures exists a, b :: longer == a + shorter + b
  {
    assert longer == longer[..i] + shorter + longer[i + |shorter|..];
  }

  lemma Whole(a: string, shorter: string, b: string)
    ensures OccursAt(a + shorter + b, shorter, |a|)
  {
    assert (a + shorter + b)[|a|..|a| + |shorter|] == shorter;
  }

  /** strip(): white space goes off the two ends, and nothing else. */
  lemma StripIsSlice(s: string) returns (i: nat, j: nat)
    ensures i <= j <= |s| && LStrip(RStrip(s)) == s[i..j]
    ensures forall k :: 0 <= k < i || j <= k < |s| ==> IsSpace(s[k])
    ensures i < j ==> !IsSpace(s[i]) && !IsSpace(s[j - 1])
  {
    RStripEnds(s);
    j := |RStrip(s)|;
    i := LStripIsSlice(s[..j]);
  }

  lemma {:induction false} RStripEnds(s: string)
    ensures forall k :: |RStrip(s)| <= k < |s| ==> IsSpace(s[k])
    ensures RStrip(s) != [] ==> !IsSpace(RStrip(s)[|RStrip(s)| - 1])
  {
    if s != [] && IsSpace(s[|s| - 1]) {
      RStripEnds(s[..|s| - 1]);
    }
  }

  lemma {:induction false} LStripIsSlice(s: string) returns (i: nat)
    ensures i <= |s| && LStrip(s) == s[i..]
    ensures forall k :: 0 <= k < i ==> IsSpace(s[k])
    ensures i < |s| ==> !IsSpace(s[i])
  {
    if s != [] && IsSpace(s[0]) {
      i := LStripIsSlice(s[1..]);
      i := i + 1;
      assert forall k :: 1 <= k < i ==> s[k] == s[1..][k - 1];
    } else {
      i := 0;
    }
  }

  lemma {:induction false} LastFeed(s: string, end: nat)
    requires end <= |s|
    ensures RFind(s, end) >= 0 ==> s[RFind(s, end)] == '\n'
    ensures forall i :: RFind(s, end) < i < end ==> s[i] != '\n'
  {
    if end > 0 && s[end - 1] != '\n' {
      LastFeed(s, end - 1);
    }
  }

  /** A text above the maximum is cut at the last line feed in the second half of what fits, or else at the
      maximum; white space before the cut goes too, and the suffix follows. */
  lemma ShortenedAt(text: string, maximum: nat) returns (cut: nat, kept: nat)
    requires |text| > maximum
    ensures kept <= cut <= maximum && Truncate(text, maximum) == text[..kept] + "\n… [фрагмент сокращён]"
    ensures forall k :: kept <= k < cut ==> IsSpace(text[k])
    ensures kept > 0 ==> !IsSpace(text[kept - 1])
    ensures cut == maximum || (text[cut] == '\n' && cut >= maximum / 2)
    ensures forall i :: maximum / 2 <= i < maximum && text[i] == '\n' ==> cut < maximum && i <= cut
  {
    hide RStrip, RFind;
    cut := CutAt(text, maximum);
    LastFeed(text, maximum);
    KeptBefore(text, cut);
    kept := |RStrip(text[..cut])|;
  }

  lemma KeptBefore(text: string, cut: nat)
    requires cut <= |text|
    ensures var kept := |RStrip(text[..cut])|;
            && kept <= cut && RStrip(text[..cut]) == text[..kept]
            && (forall k :: kept <= k < cut ==> IsSpace(text[k]))
            && (kept > 0 ==> !IsSpace(text[kept - 1]))
  {
    hide RStrip;
    var kept := |RStrip(text[..cut])|;
    RStripEnds(text[..cut]);
    assert text[..cut][..kept] == text[..kept];
    assert forall k :: 0 <= k < cut ==> text[..cut][k] == text[k];
  }

  /** Four characters make a token, and no text has none. */
  lemma TokensAre(text: string)
    ensures Tokens(text) >= 1 && 4 * Tokens(text) >= |text|
    ensures Tokens(text) > 1 ==> 4 * (Tokens(text) - 1) < |text|
  {
  }

  /** The number that a string of digits stands for. */
  function Value(digits: string): int {
    if digits == "" then 0
    else 10 * Value(digits[..|digits| - 1]) + (digits[|digits| - 1] as int - '0' as int)
  }

  ghost predicate IsNumeral(s: string, n: nat) {
    && s != "" && Value(s) == n && (|s| > 1 ==> s[0] != '0')
    && forall i :: 0 <= i < |s| ==> '0' as int <= s[i] as int <= '9' as int
  }

  lemma {:induction false} DecimalIsNumeral(n: nat)
    ensures IsNumeral(Decimal(n), n) && (n > 0 ==> Decimal(n)[0] != '0')
  {
    var s := Decimal(n);
    if n < 10 {
      assert s[..0] == "";
    } else {
      DecimalIsNumeral(n / 10);
      assert s[..|s| - 1] == Decimal(n / 10);
    }
  }

  /** The block of a source as it is written. */
  ghost predicate IsBlock(block: string, citation: nat, p: Passage, text: string) {
    exists number, tags ::
      && IsNumeral(number, citation) && Separated(tags, p.tags, ", ")
      && block == "<source id=\"" + number + "\">\nЦитата: [" + number + "]\nЗаголовок: " + p.title + "\nТеги: " + tags
                  + "\nРаздел: " + p.sectionType + "\n<<<SOURCE_DATA>>>\n" + text
                  + "\n<<<END_SOURCE_DATA>>>\n</source>"
  }

  lemma BlockIsBlock(citation: nat, p: Passage, text: string)
    ensures IsBlock(Block(citation, p, text), citation, p, text)
  {
    hide Separated, Joined, IsNumeral;
    var number, tags := Decimal(citation), Joined(p.tags, ", ");
    DecimalIsNumeral(citation);
    JoinedIsSeparated(p.tags, ", ");
    assert Block(citation, p, text)
           == "<source id=\"" + number + "\">\nЦитата: [" + number + "]\nЗаголовок: " + p.title + "\nТеги: " + tags
              + "\nРаздел: " + p.sectionType + "\n<<<SOURCE_DATA>>>\n" + text
              + "\n<<<END_SOURCE_DATA>>>\n</source>";
  }

  /** A citation mark from i to j: one to four digits between brackets. */
  predicate Cited(s: string, i: int, j: int) {
    && 0 <= i < j < |s| && s[i] == '[' && s[j] == ']' && 2 <= j - i <= 5
    && forall k :: i < k < j ==> '0' as int <= s[k] as int <= '9' as int
  }

  /** Escaping replaces the brackets of the citation marks and no other character. */
  lemma EscapedExactly(s: string)
    ensures |Escaped(s)| == |s|
    ensures forall i :: 0 <= i < |s| ==>
              Escaped(s)[i] == if exists j :: Cited(s, i, j) then '〔'
                               else if exists j :: Cited(s, j, i) then '〕' else s[i]
  {
    hide IsMark, Cited, Opens, Closes;
    forall i | 0 <= i < |s|
      ensures Opens(s, i) <==> exists j :: Cited(s, i, j)
      ensures Closes(s, i) <==> exists j :: Cited(s, j, i)
    {
      OpensIff(s, i);
      ClosesIff(s, i);
    }
  }

  lemma MarkIff(s: string, i: nat, digits: nat)
    ensures IsMark(s, i, digits) <==> Cited(s, i, i + digits + 1)
  {
  }

  lemma OpensIff(s: string, i: nat)
    ensures Opens(s, i) <==> exists j :: Cited(s, i, j)
  {
    hide IsMark;
    MarkIff(s, i, 1);
    MarkIff(s, i, 2);
    MarkIff(s, i, 3);
    MarkIff(s, i, 4);
    if j :| Cited(s, i, j) {
      assert j - i - 1 in {1, 2, 3, 4};
    }
  }

  lemma ClosesIff(s: string, i: nat)
    ensures Closes(s, i) <==> exists j :: Cited(s, j, i)
  {
    hide IsMark;
    if i >= 2 { MarkIff(s, i - 2, 1); }
    if i >= 3 { MarkIff(s, i - 3, 2); }
    if i >= 4 { MarkIff(s, i - 4, 3); }
    if i >= 5 { MarkIff(s, i - 5, 4); }
    if j :| Cited(s, j, i) {
      assert i - j - 1 in {1, 2, 3, 4};
    }
  }
}
