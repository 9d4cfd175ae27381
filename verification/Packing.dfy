/** _chunk_section: blocks packed into chunks of a target size, small ones merged, text overlapped. */
module Packing {
  import opened Text
  import opened TokenCounter
  import opened Markdown
  import opened CodeSplit
  import opened Oversized

  datatype Settings = Settings(target: nat, maximum: nat, overlap: nat, minimum: nat) {
    /** ChunkingSettings.__post_init__ */
    predicate Valid() {
      1 <= minimum <= target <= maximum && overlap < target
    }
  }

  datatype Chunk = Chunk(text: Str, hasCode: bool)

  const BLANK_LINE: Str := [LF, LF]

  /** Which parts each chunk is made of: chunk i holds the parts from bounds[i] up to bounds[i + 1], of
      which those before heads[i] were there when it was opened and the others were merged into it. */
  datatype Plan = Plan(bounds: seq<nat>, heads: seq<nat>, overlaps: seq<bool>)

  ghost function Amount(parts: seq<Block>, lo: nat, hi: nat): nat
    requires lo <= hi <= |parts|
  {
    |Content(parts[lo..hi])|
  }

  ghost predicate NoCode(parts: seq<Block>) {
    forall k :: 0 <= k < |parts| ==> !parts[k].hasCode
  }

  /** The overlap that a chunk could repeat from the one before it. */
  ghost function PreviousTail(s: Settings, packed: seq<Chunk>, i: nat): seq<Str>
    requires i <= |packed|
  {
    if i == 0 then [] else Last(Tokens(packed[i - 1].text), s.overlap)
  }

  ghost predicate WellFormed(parts: seq<Block>, packed: seq<Chunk>, plan: Plan) {
    && |plan.bounds| == |packed| + 1 && |plan.heads| == |packed| && |plan.overlaps| == |packed|
    && plan.bounds[0] == 0
    && (forall i {:trigger plan.heads[i]} :: 0 <= i < |packed| ==>
        plan.bounds[i] < plan.heads[i] <= plan.bounds[i + 1] <= |parts|)
    && plan.bounds[|packed|] <= |parts|
  }

  /** The text of chunk i: the overlap if it has one, then all tokens of its own parts. */
  ghost predicate HoldsItsParts(s: Settings, parts: seq<Block>, packed: seq<Chunk>, plan: Plan, i: nat)
    requires WellFormed(parts, packed, plan) && i < |packed|
  {
    var head := plan.heads[i];
    var own := parts[plan.bounds[i]..plan.bounds[i + 1]];
    && Tokens(packed[i].text) == (if plan.overlaps[i] then PreviousTail(s, packed, i) else []) + Content(own)
    && (packed[i].hasCode <==> !NoCode(own))
  }

  /** An overlap is repeated whenever the chunk opens with text only and the two fit together. */
  ghost predicate OverlapsText(s: Settings, parts: seq<Block>, packed: seq<Chunk>, plan: Plan, i: nat)
    requires WellFormed(parts, packed, plan) && i < |packed|
  {
    var head := plan.heads[i];
    plan.overlaps[i] <==>
      && i > 0 && s.overlap > 0 && packed[i - 1].text != []
      && NoCode(parts[plan.bounds[i]..head])
      && |PreviousTail(s, packed, i)| + Amount(parts, plan.bounds[i], head) <= s.maximum
  }

  /** A chunk stops growing only when the next part would take it past the target, does not pass the
      target by collecting parts, and is merged into the one before it when it is small and they fit. */
  ghost predicate Sized(s: Settings, parts: seq<Block>, packed: seq<Chunk>, plan: Plan, i: nat)
    requires WellFormed(parts, packed, plan) && i < |packed|
  {
    var lo, head, hi := plan.bounds[i], plan.heads[i], plan.bounds[i + 1];
    && (head == lo + 1 || Amount(parts, lo, head) <= s.target)
    && (hi == |parts| || Amount(parts, lo, hi) >= s.target || Amount(parts, lo, hi + 1) > s.target)
    && (i > 0 ==> Amount(parts, lo, head) >= s.minimum
                  || |Tokens(packed[i - 1].text)| + Amount(parts, lo, head) > s.maximum)
  }

  /** A chunk is above the limit only when it is a single part that already was. */
  ghost predicate Bounded(s: Settings, parts: seq<Block>, packed: seq<Chunk>, plan: Plan, i: nat)
    requires WellFormed(parts, packed, plan) && i < |packed|
  {
    var head := plan.heads[i];
    || |Tokens(packed[i].text)| <= s.maximum
    || (plan.bounds[i + 1] == plan.bounds[i] + 1 && TokenCount(parts[plan.bounds[i]]) > s.maximum)
  }

  ghost predicate ChunkOf(s: Settings, parts: seq<Block>, packed: seq<Chunk>, plan: Plan, i: nat)
    requires WellFormed(parts, packed, plan) && i < |packed|
  {
    && HoldsItsParts(s, parts, packed, plan, i)
    && OverlapsText(s, parts, packed, plan, i)
    && Sized(s, parts, packed, plan, i)
    && Bounded(s, parts, packed, plan, i)
  }

  ghost predicate PackedBy(s: Settings, parts: seq<Block>, packed: seq<Chunk>, plan: Plan) {
    && WellFormed(parts, packed, plan)
    && forall i :: 0 <= i < |packed| ==> ChunkOf(s, parts, packed, plan, i)
  }

  /** The parts that are in no chunk yet begin here. */
  ghost function Done(plan: Plan): nat {
    if plan.bounds == [] then 0 else plan.bounds[|plan.bounds| - 1]
  }

  // ---------- what flushing adds ----------

  /** Chunk i only looks at itself and at the chunk before it. */
  lemma ChunkFrame(s: Settings, parts: seq<Block>, a: seq<Chunk>, p: Plan, b: seq<Chunk>, q: Plan, i: nat)
    requires WellFormed(parts, a, p) && WellFormed(parts, b, q) && i < |a| && i < |b|
    requires ChunkOf(s, parts, a, p, i)
    requires a[i] == b[i] && (i > 0 ==> a[i - 1] == b[i - 1])
    requires p.bounds[i] == q.bounds[i] && p.bounds[i + 1] == q.bounds[i + 1]
    requires p.heads[i] == q.heads[i] && p.overlaps[i] == q.overlaps[i]
    ensures ChunkOf(s, parts, b, q, i)
  {
    hide Tokens, Content;
  }

  function Grown(plan: Plan, hi: nat, overlap: bool): Plan {
    Plan(plan.bounds + [hi], plan.heads + [hi], plan.overlaps + [overlap])
  }

  lemma GrownIsWellFormed(parts: seq<Block>, packed: seq<Chunk>, plan: Plan, hi: nat, overlap: bool, chunk: Chunk)
    requires WellFormed(parts, packed, plan) && Done(plan) < hi <= |parts|
    ensures WellFormed(parts, packed + [chunk], Grown(plan, hi, overlap))
  {
    var q, n := Grown(plan, hi, overlap), |packed|;
    assert Done(plan) == plan.bounds[n] && |q.bounds| == n + 2;
    forall i {:trigger q.heads[i]} | 0 <= i < n + 1
      ensures q.bounds[i] < q.heads[i] <= q.bounds[i + 1] <= |parts|
    {
      if i < n {
        assert plan.heads[i] == q.heads[i] && plan.bounds[i] == q.bounds[i] && plan.bounds[i + 1] == q.bounds[i + 1];
      } else {
        assert q.heads[n] == hi && q.bounds[n] == Done(plan) && q.bounds[n + 1] == hi;
      }
    }
  }

  lemma Append(s: Settings, parts: seq<Block>, packed: seq<Chunk>, plan: Plan, hi: nat, overlap: bool, chunk: Chunk)
    requires PackedBy(s, parts, packed, plan) && Done(plan) < hi <= |parts|
    requires WellFormed(parts, packed + [chunk], Grown(plan, hi, overlap)) ==>
               ChunkOf(s, parts, packed + [chunk], Grown(plan, hi, overlap), |packed|)
    ensures PackedBy(s, parts, packed + [chunk], Grown(plan, hi, overlap))
  {
    hide Tokens, Content, ChunkOf;
    var b, q := packed + [chunk], Grown(plan, hi, overlap);
    GrownIsWellFormed(parts, packed, plan, hi, overlap, chunk);
    forall i | 0 <= i < |b| ensures ChunkOf(s, parts, b, q, i) {
      if i < |packed| {
        assert ChunkOf(s, parts, packed, plan, i);
        ChunkFrame(s, parts, packed, plan, b, q, i);
      }
    }
  }

  function Merged(plan: Plan, hi: nat): Plan
    requires plan.bounds != []
  {
    plan.(bounds := plan.bounds[|plan.bounds| - 1 := hi])
  }

  lemma MergedIsWellFormed(parts: seq<Block>, packed: seq<Chunk>, plan: Plan, hi: nat, chunk: Chunk)
    requires packed != [] && WellFormed(parts, packed, plan) && Done(plan) < hi <= |parts|
    ensures WellFormed(parts, packed[..|packed| - 1] + [chunk], Merged(plan, hi))
  {
    var q, n := Merged(plan, hi), |packed|;
    assert Done(plan) == plan.bounds[n] && |q.bounds| == n + 1 && q.bounds[n] == hi;
    forall i {:trigger q.heads[i]} | 0 <= i < n
      ensures q.bounds[i] < q.heads[i] <= q.bounds[i + 1] <= |parts|
    {
      assert plan.heads[i] == q.heads[i] && plan.bounds[i] == q.bounds[i];
      assert plan.bounds[i + 1] <= q.bounds[i + 1];
    }
  }

  lemma Replace(s: Settings, parts: seq<Block>, packed: seq<Chunk>, plan: Plan, hi: nat, chunk: Chunk)
    requires packed != [] && PackedBy(s, parts, packed, plan) && Done(plan) < hi <= |parts|
    requires var b := packed[..|packed| - 1] + [chunk];
             WellFormed(parts, b, Merged(plan, hi)) ==> ChunkOf(s, parts, b, Merged(plan, hi), |packed| - 1)
    ensures PackedBy(s, parts, packed[..|packed| - 1] + [chunk], Merged(plan, hi))
  {
    hide Tokens, Content, ChunkOf;
    var b, q := packed[..|packed| - 1] + [chunk], Merged(plan, hi);
    MergedIsWellFormed(parts, packed, plan, hi, chunk);
    forall i | 0 <= i < |b| ensures ChunkOf(s, parts, b, q, i) {
      if i < |packed| - 1 {
        assert ChunkOf(s, parts, packed, plan, i);
        ChunkFrame(s, parts, packed, plan, b, q, i);
      }
    }
  }

  /** When the collected parts may be flushed: they respect the target, and nothing more belongs to them. */
  ghost predicate Ready(s: Settings, parts: seq<Block>, lo: nat, hi: nat)
    requires lo < hi <= |parts|
  {
    && (hi == lo + 1 || Amount(parts, lo, hi) <= s.target)
    && (hi == |parts| || Amount(parts, lo, hi) >= s.target || Amount(parts, lo, hi + 1) > s.target)
  }

  lemma ContentSplit(parts: seq<Block>, lo: nat, mid: nat, hi: nat)
    requires lo <= mid <= hi <= |parts|
    ensures Content(parts[lo..hi]) == Content(parts[lo..mid]) + Content(parts[mid..hi])
    ensures Amount(parts, lo, hi) == Amount(parts, lo, mid) + Amount(parts, mid, hi)
    ensures NoCode(parts[lo..hi]) <==> NoCode(parts[lo..mid]) && NoCode(parts[mid..hi])
  {
    hide Tokens, Content;
    assert parts[lo..hi] == parts[lo..mid] + parts[mid..hi];
    ContentConcat(parts[lo..mid], parts[mid..hi]);
    if NoCode(parts[lo..mid]) && NoCode(parts[mid..hi]) {
      assert NoCode(parts[lo..mid] + parts[mid..hi]);
    }
    if NoCode(parts[lo..hi]) {
      forall k | 0 <= k < |parts[lo..mid]|
          ensures !parts[lo..mid][k].hasCode { assert parts[lo..hi][k] == parts[lo..mid][k]; }
      forall k | 0 <= k < |parts[mid..hi]|
          ensures !parts[mid..hi][k].hasCode { assert parts[lo..hi][mid - lo + k] == parts[mid..hi][k]; }
    }
  }

  lemma AmountOne(parts: seq<Block>, lo: nat)
    requires lo < |parts|
    ensures Amount(parts, lo, lo + 1) == TokenCount(parts[lo])
  {
    hide Tokens, Content;
    assert parts[lo..lo + 1] == [parts[lo]];
    ContentOne(parts[lo]);
  }

  lemma MergedChunk(s: Settings, parts: seq<Block>, packed: seq<Chunk>, plan: Plan, hi: nat, chunk: Chunk)
    requires packed != [] && PackedBy(s, parts, packed, plan) && Done(plan) < hi <= |parts|
    requires Ready(s, parts, Done(plan), hi)
    requires var own := parts[Done(plan)..hi];
             && Tokens(chunk.text) == Tokens(packed[|packed| - 1].text) + Content(own)
             && (chunk.hasCode <==> packed[|packed| - 1].hasCode || !NoCode(own))
    requires |Tokens(chunk.text)| <= s.maximum
    ensures PackedBy(s, parts, packed[..|packed| - 1] + [chunk], Merged(plan, hi))
  {
    hide Tokens, Content, Last, Amount, NoCode;
    var b, q, n := packed[..|packed| - 1] + [chunk], Merged(plan, hi), |packed| - 1;
    assert ChunkOf(s, parts, packed, plan, n);
    ContentSplit(parts, plan.bounds[n], Done(plan), hi);
    if hi < |parts| {
      ContentSplit(parts, plan.bounds[n], Done(plan), hi + 1);
    }
    var own := Content(parts[Done(plan)..hi]);
    var prior := Content(parts[plan.bounds[n]..Done(plan)]);
    var tail := if plan.overlaps[n] then PreviousTail(s, packed, n) else [];
    assert tail + prior + own == tail + (prior + own);
    assert n > 0 ==> b[n - 1] == packed[n - 1];
    Replace(s, parts, packed, plan, hi, chunk);
  }

  lemma OpenedChunk(s: Settings, parts: seq<Block>, packed: seq<Chunk>, plan: Plan, hi: nat, overlap: bool,
          chunk: Chunk)
    requires s.Valid() && PackedBy(s, parts, packed, plan) && Done(plan) < hi <= |parts|
    requires Ready(s, parts, Done(plan), hi)
    requires var own := parts[Done(plan)..hi];
             && Tokens(chunk.text) == (if overlap then PreviousTail(s, packed, |packed|) else []) + Content(own)
             && (chunk.hasCode <==> !NoCode(own))
             && (overlap <==>
                  && |packed| > 0 && s.overlap > 0 && packed[|packed| - 1].text != [] && NoCode(own)
                  && |PreviousTail(s, packed, |packed|)| + |Content(own)| <= s.maximum)
             && (|packed| > 0 ==> |Content(own)| >= s.minimum
                                  || |Tokens(packed[|packed| - 1].text)| + |Content(own)| > s.maximum)
    ensures PackedBy(s, parts, packed + [chunk], Grown(plan, hi, overlap))
  {
    hide Tokens, Content, Last;
    AmountOne(parts, Done(plan));
    Append(s, parts, packed, plan, hi, overlap, chunk);
  }

  // ---------- the text of a chunk, character by character ----------

  /** The texts one after the other, and between two of them one empty line: the line feed that ends a line, and
      that of the empty one. */
  ghost predicate Laid(whole: Str, texts: seq<Str>)
    decreases |texts|
  {
    if texts == [] then whole == []
    else if |texts| == 1 then whole == texts[0]
    else
      var last := texts[|texts| - 1];
      var cut := |whole| - |last|;
      && cut >= 2 && whole[cut..] == last && whole[cut - 2] == LF && whole[cut - 1] == LF
      && Laid(whole[..cut - 2], texts[..|texts| - 1])
  }

  /** What one flush adds: the parts from `lo` up to `hi`, laid out and stripped. */
  datatype Flushed = Flushed(lo: nat, hi: nat, text: Str)

  /** How the chunks are written: the flushes that each is made of, and the overlap that it begins with. */
  datatype Layout = Layout(flushes: seq<seq<Flushed>>, tails: seq<Str>)

  ghost predicate IsFlushed(parts: seq<Block>, f: Flushed) {
    && f.lo < f.hi <= |parts|
    && exists raw :: Laid(raw, Texts(parts[f.lo..f.hi])) && f.text == Strip(raw)
  }

  function FlushedTexts(flushes: seq<Flushed>): (r: seq<Str>)
    ensures |r| == |flushes| && forall j :: 0 <= j < |r| ==> r[j] == flushes[j].text
  {
    seq(|flushes|, j requires 0 <= j < |flushes| => flushes[j].text)
  }

  /** Consecutive flushes, the first of which opened the chunk. */
  ghost predicate Chained(parts: seq<Block>, flushes: seq<Flushed>, lo: nat, head: nat, hi: nat) {
    && flushes != [] && flushes[0].lo == lo && flushes[0].hi == head && flushes[|flushes| - 1].hi == hi
    && (forall j :: 0 <= j < |flushes| ==> IsFlushed(parts, flushes[j]))
    && (forall j :: 1 <= j < |flushes| ==> flushes[j - 1].hi == flushes[j].lo)
  }

  /** Chunk i: the overlap if it has one, then its flushes, with one empty line between two of these. */
  ghost predicate WrittenAt(s: Settings, parts: seq<Block>, packed: seq<Chunk>, plan: Plan, layout: Layout, i: nat)
    requires WellFormed(parts, packed, plan) && i < |packed|
    requires |layout.flushes| == |packed| && |layout.tails| == |packed|
  {
    && Chained(parts, layout.flushes[i], plan.bounds[i], plan.heads[i], plan.bounds[i + 1])
    && Laid(packed[i].text,
            (if layout.tails[i] == [] then [] else [layout.tails[i]]) + FlushedTexts(layout.flushes[i]))
    && (if plan.overlaps[i] then i > 0 && IsTail(packed[i - 1].text, s.overlap, layout.tails[i])
        else layout.tails[i] == [])
  }

  ghost predicate Written(s: Settings, parts: seq<Block>, packed: seq<Chunk>, plan: Plan, layout: Layout)
  {
    && WellFormed(parts, packed, plan) && |layout.flushes| == |packed| && |layout.tails| == |packed|
    && forall i :: 0 <= i < |packed| ==> WrittenAt(s, parts, packed, plan, layout, i)
  }

  lemma {:induction false} JoinIsLaid(texts: seq<Str>)
    ensures Laid(Join(texts, BLANK_LINE), texts)
  {
    if |texts| > 1 {
      var front, last := texts[..|texts| - 1], texts[|texts| - 1];
      JoinIsLaid(front);
      var whole := Join(texts, BLANK_LINE);
      assert whole == Join(front, BLANK_LINE) + BLANK_LINE + last;
      assert whole[..|whole| - |last| - 2] == Join(front, BLANK_LINE);
    }
  }

  lemma LaidMore(whole: Str, texts: seq<Str>, last: Str)
    requires texts != [] && Laid(whole, texts)
    ensures Laid(whole + BLANK_LINE + last, texts + [last])
  {
    var all := whole + BLANK_LINE + last;
    assert all[..|all| - |last| - 2] == whole;
    assert (texts + [last])[..|texts|] == texts;
  }

  lemma LaidOne(text: Str)
    ensures Laid(text, [text])
  {
  }

  lemma FlushIsFlushed(parts: seq<Block>, lo: nat, hi: nat)
    requires lo < hi <= |parts|
    ensures IsFlushed(parts, Flushed(lo, hi, Strip(Join(Texts(parts[lo..hi]), BLANK_LINE))))
  {
    hide Strip, Join, Laid;
    JoinIsLaid(Texts(parts[lo..hi]));
  }

  function LaidOpen(layout: Layout, f: Flushed, tail: Str): Layout {
    Layout(layout.flushes + [[f]], layout.tails + [tail])
  }

  function LaidMerged(layout: Layout, f: Flushed): Layout {
    if layout.flushes == [] then layout
    else
      var n := |layout.flushes| - 1;
      layout.(flushes := layout.flushes[n := layout.flushes[n] + [f]])
  }

  lemma OpenedText(s: Settings, parts: seq<Block>, packed: seq<Chunk>, plan: Plan, layout: Layout, hi: nat,
                   overlap: bool, f: Flushed, tail: Str, chunk: Chunk)
    requires Written(s, parts, packed, plan, layout) && Done(plan) < hi <= |parts|
    requires f.lo == Done(plan) && f.hi == hi && IsFlushed(parts, f)
    requires if overlap then packed != [] && IsTail(packed[|packed| - 1].text, s.overlap, tail) else tail == []
    requires chunk.text == if tail == [] then f.text else tail + BLANK_LINE + f.text
    ensures Written(s, parts, packed + [chunk], Grown(plan, hi, overlap), LaidOpen(layout, f, tail))
  {
    hide IsFlushed, IsTail, Laid;
    var b, q, l, n := packed + [chunk], Grown(plan, hi, overlap), LaidOpen(layout, f, tail), |packed|;
    GrownIsWellFormed(parts, packed, plan, hi, overlap, chunk);
    forall i | 0 <= i < |b| ensures WrittenAt(s, parts, b, q, l, i) {
      if i < n {
        assert WrittenAt(s, parts, packed, plan, layout, i);
        WrittenFrame(s, parts, packed, plan, layout, b, q, l, i);
      } else {
        OpenedLaid(chunk.text, f.text, tail);
        assert l.flushes[n] == [f] && FlushedTexts([f]) == [f.text];
        assert q.bounds[n] == Done(plan) && q.bounds[n + 1] == hi && q.heads[n] == hi;
      }
    }
  }

  lemma OpenedLaid(whole: Str, text: Str, tail: Str)
    requires whole == if tail == [] then text else tail + BLANK_LINE + text
    ensures Laid(whole, (if tail == [] then [] else [tail]) + [text])
  {
    LaidOne(text);
    LaidOne(tail);
    LaidMore(tail, [tail], text);
    assert [] + [text] == [text];
  }

  lemma WrittenFrame(s: Settings, parts: seq<Block>, a: seq<Chunk>, p: Plan, k: Layout, b: seq<Chunk>, q: Plan,
                     l: Layout, i: nat)
    requires WellFormed(parts, a, p) && WellFormed(parts, b, q) && i < |a| && i < |b|
    requires |k.flushes| == |k.tails| == |a| && |l.flushes| == |l.tails| == |b|
    requires WrittenAt(s, parts, a, p, k, i)
    requires a[i] == b[i] && (i > 0 ==> a[i - 1] == b[i - 1])
    requires p.bounds[i] == q.bounds[i] && p.bounds[i + 1] == q.bounds[i + 1]
    requires p.heads[i] == q.heads[i] && p.overlaps[i] == q.overlaps[i]
    requires k.flushes[i] == l.flushes[i] && k.tails[i] == l.tails[i]
    ensures WrittenAt(s, parts, b, q, l, i)
  {
    hide IsFlushed, IsTail, Laid, Chained;
  }

  lemma MergedText(s: Settings, parts: seq<Block>, packed: seq<Chunk>, plan: Plan, layout: Layout, hi: nat, f: Flushed,
                   chunk: Chunk)
    requires packed != [] && Written(s, parts, packed, plan, layout) && Done(plan) < hi <= |parts|
    requires f.lo == Done(plan) && f.hi == hi && IsFlushed(parts, f)
    requires chunk.text == packed[|packed| - 1].text + BLANK_LINE + f.text
    ensures Written(s, parts, packed[..|packed| - 1] + [chunk], Merged(plan, hi), LaidMerged(layout, f))
  {
    hide IsFlushed, IsTail, Laid;
    var n := |packed| - 1;
    var b, q, l := packed[..n] + [chunk], Merged(plan, hi), LaidMerged(layout, f);
    MergedIsWellFormed(parts, packed, plan, hi, chunk);
    forall i | 0 <= i < |b| ensures WrittenAt(s, parts, b, q, l, i) {
      assert WrittenAt(s, parts, packed, plan, layout, i);
      assert i > 0 ==> b[i - 1] == packed[i - 1];
      if i < n {
        WrittenFrame(s, parts, packed, plan, layout, b, q, l, i);
      } else {
        MergedLaid(layout.tails[n], layout.flushes[n], packed[n].text, f);
        assert plan.heads[n] == q.heads[n] && plan.bounds[n] == q.bounds[n] && q.bounds[n + 1] == hi;
      }
    }
  }

  lemma MergedLaid(tail: Str, flushes: seq<Flushed>, whole: Str, f: Flushed)
    requires flushes != [] && Laid(whole, (if tail == [] then [] else [tail]) + FlushedTexts(flushes))
    ensures Laid(whole + BLANK_LINE + f.text, (if tail == [] then [] else [tail]) + FlushedTexts(flushes + [f]))
  {
    hide Laid;
    var texts := (if tail == [] then [] else [tail]) + FlushedTexts(flushes);
    LaidMore(whole, texts, f.text);
    assert (if tail == [] then [] else [tail]) + FlushedTexts(flushes + [f]) == texts + [f.text];
  }

  lemma NothingWritten(s: Settings, parts: seq<Block>)
    ensures Written(s, parts, [], Plan([0], [], []), Layout([], []))
  {
  }

  // ---------- _chunk_section ----------

  function AnyCode(blocks: seq<Block>): bool {
    exists k :: 0 <= k < |blocks| && blocks[k].hasCode
  }

  /** The nested function flush(), for blocks that were collected. */
  method Flush(s: Settings, packed: seq<Chunk>, current: seq<Block>, previousText: Str, ghost parts: seq<Block>,
          ghost plan: Plan, ghost layout: Layout)
    returns (packed': seq<Chunk>, previousText': Str, ghost plan': Plan, ghost layout': Layout)
    requires s.Valid() && PackedBy(s, parts, packed, plan) && Written(s, parts, packed, plan, layout)
    requires previousText == if packed == [] then [] else packed[|packed| - 1].text
    requires current != [] && Done(plan) + |current| <= |parts|
    requires current == parts[Done(plan)..Done(plan) + |current|]
    requires Ready(s, parts, Done(plan), Done(plan) + |current|)
    ensures PackedBy(s, parts, packed', plan') && packed' != []
    ensures Written(s, parts, packed', plan', layout')
    ensures Done(plan') == Done(plan) + |current|
    ensures previousText' == packed'[|packed'| - 1].text
  {
    hide Tokens, Content, Last, ChunkOf, Ready, Join, Strip, Texts, Written, IsFlushed, IsTail;
    ghost var hi := Done(plan) + |current|;
    var combined := Strip(Join(Texts(current), BLANK_LINE));
    ghost var flushed, tail: Str := Flushed(Done(plan), hi, combined), [];
    FlushIsFlushed(parts, Done(plan), hi);
    JoinedBlocks(current);
    var hasCode := AnyCode(current);
    var overlapped := false;
    var n := |packed|;
    if n > 0 {
      JoinedTokens(packed[n - 1].text, combined);
    }
    if n > 0 && |Tokens(combined)| < s.minimum
       && |Tokens(packed[n - 1].text + BLANK_LINE + combined)| <= s.maximum {
      var prior := packed[n - 1];
      combined := prior.text + BLANK_LINE + combined;
      hasCode := prior.hasCode || hasCode;
      packed' := packed[..n - 1] + [Chunk(combined, hasCode)];
      MergedChunk(s, parts, packed, plan, hi, Chunk(combined, hasCode));
      MergedText(s, parts, packed, plan, layout, hi, flushed, Chunk(combined, hasCode));
      plan', layout' := Merged(plan, hi), LaidMerged(layout, flushed);
    } else {
      if n > 0 && !hasCode && s.overlap > 0 && previousText != [] {
        var overlap := TokenCounter.Tail(previousText, s.overlap);
        var candidate := if overlap != [] then overlap + BLANK_LINE + combined else combined;
        JoinedTokens(overlap, combined);
        CandidateTokens(overlap, combined);
        if |Tokens(candidate)| <= s.maximum {
          combined := candidate;
          overlapped := true;
          tail := overlap;
        }
      }
      packed' := packed + [Chunk(combined, hasCode)];
      OpenedChunk(s, parts, packed, plan, hi, overlapped, Chunk(combined, hasCode));
      OpenedText(s, parts, packed, plan, layout, hi, overlapped, flushed, tail, Chunk(combined, hasCode));
      plan', layout' := Grown(plan, hi, overlapped), LaidOpen(layout, flushed, tail);
    }
    previousText' := combined;
  }

  lemma JoinedBlocks(blocks: seq<Block>)
    ensures Tokens(Strip(Join(Texts(blocks), BLANK_LINE))) == Content(blocks)
    ensures Tokens(Join(Texts(blocks), BLANK_LINE)) == Content(blocks)
  {
    hide Tokens, AllTokens, Strip, Join;
    TokensJoin(Texts(blocks), BLANK_LINE);
    TokensStrip(Join(Texts(blocks), BLANK_LINE));
  }

  lemma JoinedTokens(a: Str, b: Str)
    ensures Tokens(a + BLANK_LINE + b) == Tokens(a) + Tokens(b)
  {
    hide Tokens;
    TokensAcrossLine(a, []);
    TokensAcrossLine(a + [LF] + [], b);
    assert a + [LF] + [] + [LF] + b == a + BLANK_LINE + b;
    TokensOfNothing();
  }

  lemma CandidateTokens(overlap: Str, combined: Str)
    ensures overlap == [] ==> Tokens(combined) == Tokens(overlap) + Tokens(combined)
  {
  }

  /** What is collected so far and not yet in a chunk stays below the target. */
  ghost predicate Collecting(s: Settings, parts: seq<Block>, current: seq<Block>, lo: nat, k: nat) {
    && lo + |current| == k <= |parts| && current == parts[lo..k]
    && (current != [] ==> Amount(parts, lo, k) < s.target)
  }

  lemma CollectNone(s: Settings, parts: seq<Block>, k: nat)
    requires k <= |parts|
    ensures Collecting(s, parts, [], k, k)
  {
  }

  lemma FlushBefore(s: Settings, parts: seq<Block>, current: seq<Block>, lo: nat, k: nat)
    requires Collecting(s, parts, current, lo, k) && current != []
    requires k == |parts| || |Content(current + [parts[k]])| > s.target
    ensures lo < k && Ready(s, parts, lo, k)
  {
    hide Tokens, Content;
    if k < |parts| {
      assert parts[lo..k + 1] == current + [parts[k]];
    }
  }

  lemma FlushAfter(s: Settings, parts: seq<Block>, current: seq<Block>, lo: nat, k: nat)
    requires Collecting(s, parts, current, lo, k) && k < |parts|
    requires current == [] || |Content(current + [parts[k]])| <= s.target
    ensures current + [parts[k]] == parts[lo..k + 1]
    ensures |Content(current + [parts[k]])| < s.target ==> Collecting(s, parts, current + [parts[k]], lo, k + 1)
    ensures |Content(current + [parts[k]])| >= s.target ==> Ready(s, parts, lo, k + 1)
  {
    hide Tokens, Content;
    assert parts[lo..k + 1] == current + [parts[k]];
  }

  lemma NothingPacked(s: Settings, parts: seq<Block>)
    ensures PackedBy(s, parts, [], Plan([0], [], []))
  {
  }

  lemma CollectingFits(s: Settings, parts: seq<Block>, current: seq<Block>, lo: nat, k: nat)
    requires Collecting(s, parts, current, lo, k)
    ensures lo + |current| == k <= |parts| && current == parts[lo..k]
  {
  }

  /** The loop of _chunk_section over the parts of a section. */
  method Pack(s: Settings, blocks: seq<Block>) returns (packed: seq<Chunk>, ghost plan: Plan, ghost layout: Layout)
    requires s.Valid()
    ensures PackedBy(s, blocks, packed, plan) && Done(plan) == |blocks|
    ensures Written(s, blocks, packed, plan, layout)
    ensures exists p, l :: PackedBy(s, blocks, packed, p) && Done(p) == |blocks| && Written(s, blocks, packed, p, l)
  {
    hide Tokens, Content, Join, Texts, PackedBy, Collecting, Ready, Written;
    packed, plan, layout := [], Plan([0], [], []), Layout([], []);
    NothingPacked(s, blocks);
    NothingWritten(s, blocks);
    var current: seq<Block> := [];
    CollectNone(s, blocks, 0);
    var previousText: Str := [];
    var k: nat := 0;
    while k < |blocks|
      invariant k <= |blocks|
      invariant PackedBy(s, blocks, packed, plan) && Written(s, blocks, packed, plan, layout)
      invariant previousText == if packed == [] then [] else packed[|packed| - 1].text
      invariant Collecting(s, blocks, current, Done(plan), k)
    {
      var block := blocks[k];
      JoinedBlocks(current + [block]);
      CollectingFits(s, blocks, current, Done(plan), k);
      var candidate := Join(Texts(current + [block]), BLANK_LINE);
      if current != [] && |Tokens(candidate)| > s.target {
        FlushBefore(s, blocks, current, Done(plan), k);
        packed, previousText, plan, layout := Flush(s, packed, current, previousText, blocks, plan, layout);
        current := [];
        CollectNone(s, blocks, k);
      }
      FlushAfter(s, blocks, current, Done(plan), k);
      current := current + [block];
      JoinedBlocks(current);
      var currentSize := |Tokens(Join(Texts(current), BLANK_LINE))|;
      k := k + 1;
      if currentSize >= s.target {
        packed, previousText, plan, layout := Flush(s, packed, current, previousText, blocks, plan, layout);
        current := [];
        CollectNone(s, blocks, k);
      }
    }
    CollectingFits(s, blocks, current, Done(plan), k);
    if current != [] {
      FlushBefore(s, blocks, current, Done(plan), k);
      packed, previousText, plan, layout := Flush(s, packed, current, previousText, blocks, plan, layout);
    }
  }
}
