/** Search marks: `marked` of Marks.js. */
module Marks {
  import opened SeqFacts
  import opened Utf16
  import opened JsText
  import opened Escaping
  import opened Reader

  const FONT: Text := [0x66, 0x6F, 0x6E, 0x74, 0x20, 0x63, 0x6F, 0x6C, 0x6F, 0x72, 0x3D, 0x22]  // font color="
  const FONT_END: Text := [0x2F, 0x66, 0x6F, 0x6E, 0x74]  // /font

  function Tag(name: Text): Text {
    [LESS] + name + [MORE]
  }

  function OpenMark(color: Text): Text {
    Tag(BOLD) + Tag(FONT + color + [QUOTE])
  }

  const CLOSE_MARK: Text := Tag(FONT_END) + Tag(UNBOLD)

  /** What goes round a marked run. */
  datatype MarkTags = MarkTags(open: Text, close: Text)

  function TagsOf(color: Text): MarkTags {
    MarkTags(OpenMark(color), CLOSE_MARK)
  }

  // ----- what is marked -----

  /** Where the marks start, from `from` on: the next occurrence, then the rest after it. */
  function Spans(folded: Text, term: Text, from: nat): (spans: seq<nat>)
    requires term != [] && from <= |folded|
    decreases |folded| - from
  {
    var at := IndexOf(folded, term, from);
    if at < 0 then [] else [at] + Spans(folded, term, at + |term|)
  }

  predicate InSpan(spans: seq<nat>, n: nat, i: nat) {
    exists k :: 0 <= k < |spans| && spans[k] <= i < spans[k] + n
  }

  /** Occurrences, apart and in order. */
  predicate Apart(folded: Text, term: Text, spans: seq<nat>, from: nat) {
    && (forall k :: 0 <= k < |spans| ==> from <= spans[k] && OccursAt(folded, term, spans[k]))
    && forall j, k :: 0 <= j < k < |spans| ==> spans[j] + |term| <= spans[k]
  }

  lemma InSpanFirst(at: nat, rest: seq<nat>, n: nat, i: nat)
    ensures InSpan([at] + rest, n, i) <==> at <= i < at + n || InSpan(rest, n, i)
  {
    var all := [at] + rest;
    if InSpan(rest, n, i) {
      var k :| 0 <= k < |rest| && rest[k] <= i < rest[k] + n;
      assert all[k + 1] == rest[k];
    }
    if at <= i < at + n {
      assert all[0] == at;
    }
  }

  lemma ApartFirst(folded: Text, term: Text, at: nat, rest: seq<nat>, from: nat)
    requires from <= at && OccursAt(folded, term, at)
    requires Apart(folded, term, rest, at + |term|)
    ensures Apart(folded, term, [at] + rest, from)
  {
    var all := [at] + rest;
    forall k | 0 <= k < |all|
      ensures from <= all[k] && OccursAt(folded, term, all[k])
    {
      if k > 0 {
        assert all[k] == rest[k - 1];
      }
    }
    forall j, k | 0 <= j < k < |all|
      ensures all[j] + |term| <= all[k]
    {
      assert all[k] == rest[k - 1];
      if j > 0 {
        assert all[j] == rest[j - 1];
      }
    }
  }

  lemma {:induction false} SpansApart(folded: Text, term: Text, from: nat)
    requires term != [] && from <= |folded|
    ensures Apart(folded, term, Spans(folded, term, from), from)
    decreases |folded| - from
  {
    var at := IndexOf(folded, term, from);
    if at < 0 {
    } else {
      SpansApart(folded, term, at + |term|);
      ApartFirst(folded, term, at, Spans(folded, term, at + |term|), from);
    }
  }

  /** An occurrence starts in a mark: one further left would have been marked itself. */
  lemma {:induction false} SpansCover(folded: Text, term: Text, from: nat, p: nat)
    requires term != [] && from <= |folded| && from <= p && OccursAt(folded, term, p)
    ensures InSpan(Spans(folded, term, from), |term|, p)
    decreases |folded| - from
  {
    IndexIsFirst(folded, term, from, p);
    var at := IndexOf(folded, term, from);
    InSpanFirst(at, Spans(folded, term, at + |term|), |term|, p);
    if p < at + |term| {
    } else {
      SpansCover(folded, term, at + |term|, p);
    }
  }

  /** The marks are the leftmost occurrences that do not overlap: an occurrence is marked
      exactly when it does not start inside the mark of one before it. */
  lemma SpansAreLeftmost(folded: Text, term: Text, p: nat)
    requires term != []
    ensures Apart(folded, term, Spans(folded, term, 0), 0)
    ensures p in Spans(folded, term, 0)
            <==> OccursAt(folded, term, p)
                 && forall s <- Spans(folded, term, 0) :: !(s < p < s + |term|)
    ensures OccursAt(folded, term, p) ==> InSpan(Spans(folded, term, 0), |term|, p)
  {
    var spans := Spans(folded, term, 0);
    SpansApart(folded, term, 0);
    if OccursAt(folded, term, p) {
      SpansCover(folded, term, 0, p);
    }
    if p in spans {
      var j :| 0 <= j < |spans| && spans[j] == p;
      forall s | s in spans
        ensures !(s < p < s + |term|)
      {
        var k :| 0 <= k < |spans| && spans[k] == s;
        assert k < j ==> spans[k] + |term| <= spans[j];
        assert j < k ==> spans[j] + |term| <= spans[k];
      }
    }
  }

  // ----- the marked text -----

  /** Spans of `n` units within `len`, in order and apart. */
  predicate SpansFit(spans: seq<nat>, n: nat, len: nat) {
    && (forall k :: 0 <= k <= |spans| ==> RunStart(spans, n, k) <= RunEnd(spans, len, k) <= len)
    && forall k :: 0 <= k < |spans| ==> spans[k] + n <= len
  }

  /** The run before span `k`, or after the last, starts here. */
  function RunStart(spans: seq<nat>, n: nat, k: nat): nat
    requires k <= |spans|
  {
    if k == 0 then 0 else spans[k - 1] + n
  }

  function RunEnd(spans: seq<nat>, len: nat, k: nat): nat
    requires k <= |spans|
  {
    if k == |spans| then len else spans[k]
  }

  function RunText(text: Text, spans: seq<nat>, n: nat, k: nat): Text
    requires SpansFit(spans, n, |text|) && k <= |spans|
  {
    text[RunStart(spans, n, k)..RunEnd(spans, |text|, k)]
  }

  function SpanText(text: Text, spans: seq<nat>, n: nat, k: nat): Text
    requires SpansFit(spans, n, |text|) && k < |spans|
  {
    text[spans[k]..spans[k] + n]
  }

  /** The runs between the marks, escaped; only the first, if a mark follows, starts a line. */
  function RunMarkups(text: Text, spans: seq<nat>, n: nat): (runs: seq<Text>)
    requires SpansFit(spans, n, |text|)
    ensures |runs| == |spans| + 1
  {
    seq(|spans| + 1, k requires 0 <= k <= |spans| =>
      Escaped(RunText(text, spans, n, k), k < |spans| && RunStart(spans, n, k) == 0))
  }

  /** The marks: each span, escaped, in tags. */
  function MarkMarkups(text: Text, spans: seq<nat>, n: nat, tags: MarkTags): (marks: seq<Text>)
    requires SpansFit(spans, n, |text|)
    ensures |marks| == |spans|
  {
    seq(|spans|, k requires 0 <= k < |spans| =>
      tags.open + Escaped(SpanText(text, spans, n, k), spans[k] == 0) + tags.close)
  }

  /** The text with each span in a mark's tags. */
  function MarkedBy(text: Text, spans: seq<nat>, n: nat, tags: MarkTags): Text
    requires SpansFit(spans, n, |text|)
  {
    Woven(RunMarkups(text, spans, n), MarkMarkups(text, spans, n, tags), 0)
  }

  lemma SpansAlwaysFit(folded: Text, term: Text)
    requires term != []
    ensures SpansFit(Spans(folded, term, 0), |term|, |folded|)
  {
    SpansApart(folded, term, 0);
  }

  /** What is searched for: the query without white space around it, in lower case. */
  function Term(query: Text, lower: Text -> Text): Text {
    if query == [] then [] else lower(Trim(query))
  }

  predicate Matches(text: Text, query: Text, lower: Text -> Text) {
    && text != [] && Term(query, lower) != [] && |lower(text)| == |text|
    && IndexOf(lower(text), Term(query, lower), 0) >= 0
  }

  /** Where the query is found in the text. */
  function MarkSpans(text: Text, query: Text, lower: Text -> Text): (spans: seq<nat>)
    requires Matches(text, query, lower)
    ensures SpansFit(spans, |Term(query, lower)|, |text|)
  {
    SpansAlwaysFit(lower(text), Term(query, lower));
    Spans(lower(text), Term(query, lower), 0)
  }

  /** What `marked` makes. Without a match it is empty; so it is where lower case is longer or
      shorter, since a position there is none in the text. */
  function MarkedText(text: Text, query: Text, color: Text, lower: Text -> Text): Text {
    if Matches(text, query, lower) then
      MarkedBy(text, MarkSpans(text, query, lower), |Term(query, lower)|, TagsOf(color))
    else []
  }

  method Marked(text: Text, query: Text, color: Text, lower: Text -> Text) returns (out: Text)
    ensures out == MarkedText(text, query, color, lower)
  {
    var term := if query == [] then [] else lower(Trim(query));
    if text == [] || |term| == 0 {
      return [];
    }
    var folded := lower(text);
    if |folded| != |text| {
      return [];
    }
    if IndexOf(folded, term, 0) < 0 {
      return [];
    }
    out := MarkAll(text, folded, term, TagsOf(color));
  }

  method MarkAll(text: Text, folded: Text, term: Text, tags: MarkTags) returns (out: Text)
    requires term != [] && |folded| == |text|
    ensures SpansFit(Spans(folded, term, 0), |term|, |text|)
    ensures out == MarkedBy(text, Spans(folded, term, 0), |term|, tags)
  {
    ghost var spans := Spans(folded, term, 0);
    SpansAlwaysFit(folded, term);
    out := MarkLoop(text, folded, term, tags, spans, RunMarkups(text, spans, |term|),
                    MarkMarkups(text, spans, |term|, tags));
  }

  /** From `from` on there are the spans from the `k`th. */
  ghost predicate SpansLeft(folded: Text, term: Text, from: nat, spans: seq<nat>, k: nat) {
    && term != [] && from <= |folded| && k <= |spans|
    && Spans(folded, term, from) == spans[k..]
    && from == RunStart(spans, |term|, k)
  }

  /** These are the markups of the runs and the marks. */
  ghost predicate AreMarkups(text: Text, spans: seq<nat>, n: nat, tags: MarkTags, runs: seq<Text>, marks: seq<Text>)
    requires SpansFit(spans, n, |text|)
  {
    runs == RunMarkups(text, spans, n) && marks == MarkMarkups(text, spans, n, tags)
  }

  /** The loop over the occurrences: what is before each, then its mark; then the rest. */
  method MarkLoop(text: Text, folded: Text, term: Text, tags: MarkTags,
                  ghost spans: seq<nat>, ghost runs: seq<Text>, ghost marks: seq<Text>) returns (out: Text)
    requires term != [] && |folded| == |text| && spans == Spans(folded, term, 0)
    requires SpansFit(spans, |term|, |text|) && AreMarkups(text, spans, |term|, tags, runs, marks)
    requires |runs| == |spans| + 1 && |marks| == |spans|
    ensures out == Woven(runs, marks, 0)
  {
    out := [];
    var from: nat := 0;
    var at := IndexOf(folded, term, 0);
    ghost var k: nat := 0;
    assert spans[0..] == spans;
    while at >= 0
      invariant from <= |text| && at == IndexOf(folded, term, from)
      invariant SpansLeft(folded, term, from, spans, k)
      invariant IsLaid(out, runs, marks, k)
      decreases |text| - from
    {
      SpansNext(folded, term, from, at, spans, k);
      var part := MarkOne(text, spans, k, |term|, tags, from, at, runs, marks);
      LaidNext(out, runs, marks, k, part);
      out := out + part;
      from := at + |term|;
      at := IndexOf(folded, term, from);
      k := k + 1;
    }
    SpansOver(folded, term, from, spans, k);
    LaidAll(out, runs, marks);
    var rest := MarkRest(text, spans, |term|, from, tags, runs, marks);
    out := out + rest;
  }

  /** What is before one occurrence, and its mark. */
  method MarkOne(text: Text, ghost spans: seq<nat>, ghost k: nat, n: nat, tags: MarkTags, from: nat, at: nat,
                 ghost runs: seq<Text>, ghost marks: seq<Text>)
      returns (part: Text)
    requires SpansFit(spans, n, |text|) && AreMarkups(text, spans, n, tags, runs, marks)
    requires k < |spans| == |marks| < |runs| && from == RunStart(spans, n, k) && at == spans[k]
    ensures part == runs[k] + marks[k]
  {
    part := Escape(text[from..at], from == 0);
    var found := Escape(text[at..at + n], at == 0);
    part := part + (tags.open + found + tags.close);
  }

  method MarkRest(text: Text, ghost spans: seq<nat>, ghost n: nat, from: nat, ghost tags: MarkTags,
                  ghost runs: seq<Text>, ghost marks: seq<Text>)
      returns (rest: Text)
    requires SpansFit(spans, n, |text|) && AreMarkups(text, spans, n, tags, runs, marks)
    requires from == RunStart(spans, n, |spans|) && |runs| == |spans| + 1
    ensures rest == runs[|spans|]
  {
    assert text[from..] == RunText(text, spans, n, |spans|);
    rest := Escape(text[from..], false);
  }

  lemma SpansNext(folded: Text, term: Text, from: nat, at: nat, spans: seq<nat>, k: nat)
    requires SpansLeft(folded, term, from, spans, k) && at == IndexOf(folded, term, from)
    ensures k < |spans| && spans[k] == at && at + |term| <= |folded|
    ensures SpansLeft(folded, term, at + |term|, spans, k + 1)
  {
    var rest := Spans(folded, term, at + |term|);
    ConsRest(at, rest);
    assert spans[k..][0] == spans[k] && spans[k..][1..] == spans[k + 1..];
  }

  lemma SpansOver(folded: Text, term: Text, from: nat, spans: seq<nat>, k: nat)
    requires SpansLeft(folded, term, from, spans, k) && IndexOf(folded, term, from) < 0
    ensures k == |spans|
  {
  }

  // ----- what it shows -----

  /** The runs as they are to be shown, not bold. */
  function RunGlyphs(text: Text, spans: seq<nat>, n: nat): (runs: seq<seq<Glyph>>)
    requires SpansFit(spans, n, |text|)
    ensures |runs| == |spans| + 1
  {
    seq(|spans| + 1, k requires 0 <= k <= |spans| => Chars(Clean(RunText(text, spans, n, k)), PLAIN))
  }

  /** The spans as they are to be shown, in the look of a mark. */
  function SpanGlyphs(text: Text, spans: seq<nat>, n: nat, look: Look): (marks: seq<seq<Glyph>>)
    requires SpansFit(spans, n, |text|)
    ensures |marks| == |spans|
  {
    seq(|spans|, k requires 0 <= k < |spans| => Chars(Clean(SpanText(text, spans, n, k)), look))
  }

  /** The text as it is to be shown: the spans in the look of a mark, the rest plain. */
  function Painted(text: Text, spans: seq<nat>, n: nat, look: Look): seq<Glyph>
    requires SpansFit(spans, n, |text|)
  {
    Woven(RunGlyphs(text, spans, n), SpanGlyphs(text, spans, n, look), 0)
  }

  /** How a mark looks: bold, in the colour given. */
  function MarkLook(color: Text): Look {
    Look(true, color)
  }

  lemma ReadOpen(color: Text)
    requires MORE !in color
    ensures End(START, OpenMark(color)) == State(InText, MarkLook(color))
    ensures Shown(START, OpenMark(color)) == []
  {
    var name := FONT + color + [QUOTE];
    assert |name| > 2 && name[12..|name| - 1] == color;
    ReadTag(PLAIN, BOLD);
    ReadTag(Look(true, []), name);
    ReadConcat(START, Tag(BOLD), Tag(name));
  }

  /** Tags that turn a look on and off and show nothing themselves. */
  predicate LookTags(tags: MarkTags, look: Look) {
    && End(START, tags.open) == State(InText, look) && Shown(START, tags.open) == []
    && End(State(InText, look), tags.close) == START && Shown(State(InText, look), tags.close) == []
  }

  lemma ReadClose(color: Text)
    ensures End(State(InText, MarkLook(color)), CLOSE_MARK) == START
    ensures Shown(State(InText, MarkLook(color)), CLOSE_MARK) == []
  {
    ReadTag(MarkLook(color), FONT_END);
    ReadTag(Look(true, []), UNBOLD);
    ReadConcat(State(InText, MarkLook(color)), Tag(FONT_END), Tag(UNBOLD));
  }

  lemma TagsGiveLook(color: Text)
    requires MORE !in color
    ensures LookTags(TagsOf(color), MarkLook(color))
  {
    ReadOpen(color);
    ReadClose(color);
  }

  /** One mark shows its run in its look and leaves the reader as it was. */
  lemma ReadMark(run: Text, lineStart: bool, tags: MarkTags, look: Look)
    requires LookTags(tags, look)
    ensures var mark := tags.open + Escaped(run, lineStart) + tags.close;
            End(START, mark) == START && Shown(START, mark) == Chars(Clean(run), look)
  {
    var body := Escaped(run, lineStart);
    EscapedReadsBack(run, lineStart, look);
    ReadConcat(START, tags.open + body, tags.close);
    ReadConcat(START, tags.open, body);
  }

  /** Texts that each leave the reader as it was show, woven, what they show. */
  lemma {:induction false} ReadWoven(runs: seq<Text>, marks: seq<Text>, x: seq<seq<Glyph>>, y: seq<seq<Glyph>>, k: nat)
    requires |runs| == |x| == |marks| + 1 && |y| == |marks| && k <= |marks|
    requires forall i :: 0 <= i < |runs| ==> End(START, runs[i]) == START && Shown(START, runs[i]) == x[i]
    requires forall i :: 0 <= i < |marks| ==> End(START, marks[i]) == START && Shown(START, marks[i]) == y[i]
    ensures End(START, Woven(runs, marks, k)) == START
    ensures Shown(START, Woven(runs, marks, k)) == Woven(x, y, k)
    decreases |marks| - k
  {
    if k == |marks| {
    } else {
      var rest := Woven(runs, marks, k + 1);
      ReadWoven(runs, marks, x, y, k + 1);
      ReadConcat(START, runs[k] + marks[k], rest);
      ReadConcat(START, runs[k], marks[k]);
    }
  }

  /** A text with marks shows the whole text, the marks in their look. */
  lemma MarkedByShows(text: Text, spans: seq<nat>, n: nat, tags: MarkTags, look: Look)
    requires SpansFit(spans, n, |text|) && LookTags(tags, look)
    ensures End(START, MarkedBy(text, spans, n, tags)) == START
    ensures Shown(START, MarkedBy(text, spans, n, tags)) == Painted(text, spans, n, look)
  {
    var runs, marks := RunMarkups(text, spans, n), MarkMarkups(text, spans, n, tags);
    var x, y := RunGlyphs(text, spans, n), SpanGlyphs(text, spans, n, look);
    forall i | 0 <= i < |runs|
      ensures End(START, runs[i]) == START && Shown(START, runs[i]) == x[i]
    {
      EscapedReadsBack(RunText(text, spans, n, i), i < |spans| && RunStart(spans, n, i) == 0, PLAIN);
    }
    forall i | 0 <= i < |marks|
      ensures End(START, marks[i]) == START && Shown(START, marks[i]) == y[i]
    {
      ReadMark(SpanText(text, spans, n, i), spans[i] == 0, tags, look);
    }
    ReadWoven(runs, marks, x, y, 0);
  }

  /** A marked text shows the whole text, bold and in the colour exactly where the term was
      found. */
  lemma MarkedShowsText(text: Text, query: Text, color: Text, lower: Text -> Text)
    requires MORE !in color && Matches(text, query, lower)
    ensures End(START, MarkedText(text, query, color, lower)) == START
    ensures Shown(START, MarkedText(text, query, color, lower))
            == Painted(text, MarkSpans(text, query, lower), |Term(query, lower)|, MarkLook(color))
  {
    TagsGiveLook(color);
    MarkedByShows(text, MarkSpans(text, query, lower), |Term(query, lower)|, TagsOf(color), MarkLook(color));
  }

  /** There are marks exactly where the trimmed query in lower case stands in the text in lower
      case, unit for unit, if that is as long as the text. */
  lemma MarkedExactly(text: Text, query: Text, color: Text, lower: Text -> Text)
    ensures MarkedText(text, query, color, lower) != []
            <==> && text != [] && query != [] && lower(Trim(query)) != [] && |lower(text)| == |text|
                 && exists p :: IsFoundAt(lower(text), lower(Trim(query)), p)
  {
    var folded, term := lower(text), Term(query, lower);
    forall p
      ensures IsFoundAt(folded, term, p) <==> p >= 0 && OccursAt(folded, term, p)
    {
      if p >= 0 {
        OccursIsSlice(folded, term, p);
      }
    }
    if term != [] && text != [] && |folded| == |text| {
      if p :| IsFoundAt(folded, term, p) {
        IndexIsFirst(folded, term, 0, p);
      }
      if IndexOf(folded, term, 0) >= 0 {
        assert IsFoundAt(folded, term, IndexOf(folded, term, 0));
      }
    }
    if Matches(text, query, lower) {
      MarkedNotEmpty(text, query, color, lower);
    }
  }

  ghost predicate IsFoundAt(s: Text, term: Text, p: int) {
    0 <= p && p + |term| <= |s| && s[p..p + |term|] == term
  }

  lemma MarkedNotEmpty(text: Text, query: Text, color: Text, lower: Text -> Text)
    requires Matches(text, query, lower)
    ensures MarkedText(text, query, color, lower) != []
  {
    var spans, n := MarkSpans(text, query, lower), |Term(query, lower)|;
    assert |OpenMark(color)| > 0;
    assert |MarkMarkups(text, spans, n, TagsOf(color))[0]| > 0;
  }
}
