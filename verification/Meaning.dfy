/** What a message means is kept all the way: what `drawn` puts out shows the text. */
module Meaning {
  import opened SeqFacts
  import opened Utf16
  import opened EmojiTables
  import opened EmojiScanner
  import opened PointLexer
  import opened EmojiGenerator
  import opened Escaping
  import opened Reader
  import opened StyledText
  import opened Marks

  // ----- keys without markup -----

  /** Characters that open or close a tag or an entity. */
  const MARKUP: set<Unit> := {AND, SEMICOLON, LESS, MORE}

  predicate Without(s: Text, units: set<Unit>) {
    forall u <- s :: u !in units
  }

  /** No emoji of the table has one of these units in it. */
  predicate KeysWithout(t: Tables, units: set<Unit>) {
    forall k <- t.byKey :: Without(k, units)
  }

  predicate RowsWithout(rows: seq<Row>, units: set<Unit>) {
    forall row <- rows :: forall p <- row.emoji :: p > 0xFFFF || p !in units
  }

  lemma {:induction false} EncodeWithout(ps: Points, units: set<Unit>)
    requires forall p <- ps :: p > 0xFFFF || p !in units
    requires forall u <- units :: u < 0xD800
    ensures Without(Encode(WithoutSelectors(ps)), units)
  {
    if ps == [] {
    } else {
      assert ps[0] in ps && forall p <- ps[1..] :: p in ps;
      EncodeWithout(ps[1..], units);
      forall u | u in EncodePoint(ps[0])
        ensures u !in units
      {
      }
    }
  }

  /** Tables built from emoji without such characters have keys without them. */
  lemma RowsToKeysWithout(rows: seq<Row>, t: Tables, units: set<Unit>)
    requires TablesOf(rows, t) && RowsWithout(rows, units) && forall u <- units :: u < 0xD800
    ensures KeysWithout(t, units)
  {
    forall k | k in t.byKey
      ensures Without(k, units)
    {
      assert NamedByLast(rows, |rows|, k, t.byKey[k]);
      var i :| 0 <= i < |rows| && RowKey(rows[i]) == k;
      EncodeWithout(rows[i].emoji, units);
    }
  }

  /** Selectors and skin tones are all a key leaves out. */
  lemma {:induction false} KeyKeeps(emoji: Text, u: Unit)
    requires u in emoji && u != SELECTOR
    ensures u in Key(emoji)
  {
    if emoji[0] == u {
    } else {
      KeyKeeps(emoji[1..], u);
    }
  }

  lemma {:induction false} UntonedKeeps(s: Text, u: Unit)
    requires u in s && u < 0xD800
    ensures u in WithoutTones(s)
  {
    if s[0] == u {
    } else {
      UntonedKeeps(s[if ToneFirst(s) then 2 else 1..], u);
    }
  }

  /** A cut has no character, below the surrogates, that no key has. */
  lemma CutUnitInKey(t: Tables, text: Text, c: Cut, u: Unit)
    requires CutOf(t, text, c) && u in text[c.start..c.end] && u < 0xD800
    ensures exists k <- t.byKey :: u in k
  {
    var emoji := text[c.start..c.end];
    var k := LookupKey(t, emoji);
    KeyKeeps(emoji, u);
    UntonedKeeps(Key(emoji), u);
  }

  lemma CutWithout(t: Tables, text: Text, c: Cut, units: set<Unit>)
    requires KeysWithout(t, units) && CutOf(t, text, c) && forall u <- units :: u < 0xD800
    ensures Without(text[c.start..c.end], units)
  {
    forall u | u in text[c.start..c.end]
      ensures u !in units
    {
      if u in units {
        CutUnitInKey(t, text, c, u);
      }
    }
  }

  /** A cut is shown in the picture the table has for its emoji. */
  lemma CutsArePictures(t: Tables, text: Text, styled: bool)
    ensures forall c <- Cuts(t, text, styled) ::
              c.start < c.end <= |text| && PictureFor(t, text[c.start..c.end]) == c.name
  {
    CutsAreEmoji(t, text, styled);
    forall c | c in Cuts(t, text, styled)
      ensures c.start < c.end <= |text| && PictureFor(t, text[c.start..c.end]) == c.name
    {
      assert CutOf(t, text, c);
    }
  }

  // ----- plain text -----

  lemma {:induction false} PlainSettled(text: Text, cuts: seq<Cut>, from: nat)
    requires Ordered(cuts, from, |text|)
    ensures Settled(START, text, false, cuts, from)
    decreases |cuts|
  {
    if cuts == [] {
    } else {
      PlainSettled(text, cuts[1..], cuts[0].end);
    }
  }

  /** A plain text with pictures shows the text, each emoji as its picture, with exactly
      the room `RoomFirst` and `RoomLast` spell out: one space at an end that faces a picture, if
      there is none and no line starts or ends there. */
  lemma PlainTextKept(t: Tables, text: Text)
      returns (runs: seq<seq<Glyph>>, said: seq<seq<Glyph>>, emoji: seq<seq<Glyph>>)
    requires Cuts(t, text, false) != []
    ensures Pairs(ShownAll(START, DrawnChunks(t, text, [])), Chars(Clean(text), PLAIN),
                  text, Cuts(t, text, false), false, 0, runs, said, emoji)
  {
    CutsAreEmoji(t, text, false);
    PlainSettled(text, Cuts(t, text, false), 0);
    runs, said, emoji := RenderedShows(START, text, false, Cuts(t, text, false), 0);
    assert text[0..] == text;
  }

  /** Without marks and without an emoji to draw there is nothing to lay out: the caller draws
      the text as it is. */
  lemma PlainTextLeft(t: Tables, text: Text)
    ensures DrawnChunks(t, text, []) == [] <==> Cuts(t, text, false) == []
  {
    CutsAreEmoji(t, text, false);
  }

  // ----- marked text -----

  /** Tags and entities are ASCII from first unit to last. */
  predicate AsciiMarkup(st: State, s: Text)
    decreases |s|
  {
    s == [] || ((st.mode.InText? || s[0] < 0x80) && AsciiMarkup(Next(st, s[0]), s[1..]))
  }

  lemma {:induction false} AsciiConcat(st: State, a: Text, b: Text)
    ensures AsciiMarkup(st, a + b) <==> AsciiMarkup(st, a) && AsciiMarkup(End(st, a), b)
    decreases |a|
  {
    if a == [] {
      ConcatNone(b);
    } else {
      AsciiConcat(Next(st, a[0]), a[1..], b);
      ConcatFirst(a, b);
    }
  }

  lemma {:induction false} AsciiAll(st: State, s: Text)
    requires forall u <- s :: u < 0x80
    ensures AsciiMarkup(st, s)
    decreases |s|
  {
    if s == [] {
    } else {
      assert s[0] in s && forall u <- s[1..] :: u in s;
      AsciiAll(Next(st, s[0]), s[1..]);
    }
  }

  lemma EscapedUnitAscii(look: Look, u: Unit, before: Before)
    ensures AsciiMarkup(State(InText, look), EscapedUnit(u, before))
  {
    if EscapedUnit(u, before) != [u] {
      AsciiAll(State(InText, look), EscapedUnit(u, before));
    }
  }

  lemma {:induction false} EscapedAscii(look: Look, clean: Text, before: Before)
    ensures AsciiMarkup(State(InText, look), EscapedFrom(clean, before))
  {
    if clean == [] {
    } else {
      EscapedAscii(look, clean[1..], After(clean[0]));
      ReadEscapedUnit(look, clean[0], before);
      EscapedUnitAscii(look, clean[0], before);
      AsciiConcat(State(InText, look), EscapedUnit(clean[0], before), EscapedFrom(clean[1..], After(clean[0])));
    }
  }

  predicate AsciiTags(tags: MarkTags) {
    (forall u <- tags.open :: u < 0x80) && (forall u <- tags.close :: u < 0x80)
  }

  lemma MarkAscii(run: Text, lineStart: bool, tags: MarkTags, look: Look)
    requires LookTags(tags, look) && AsciiTags(tags)
    ensures AsciiMarkup(START, tags.open + Escaped(run, lineStart) + tags.close)
  {
    var body := Escaped(run, lineStart);
    AsciiAll(START, tags.open);
    EscapedAscii(look, Clean(run), if lineStart then LineStart else Words);
    EscapedReadsBack(run, lineStart, look);
    AsciiAll(State(InText, look), tags.close);
    AsciiConcat(START, tags.open, body);
    EndConcat(START, tags.open, body);
    AsciiConcat(START, tags.open + body, tags.close);
  }

  lemma {:induction false} AsciiWoven(runs: seq<Text>, marks: seq<Text>, k: nat)
    requires |runs| == |marks| + 1 && k <= |marks|
    requires forall i :: 0 <= i < |runs| ==> End(START, runs[i]) == START && AsciiMarkup(START, runs[i])
    requires forall i :: 0 <= i < |marks| ==> End(START, marks[i]) == START && AsciiMarkup(START, marks[i])
    ensures AsciiMarkup(START, Woven(runs, marks, k))
    decreases |marks| - k
  {
    if k == |marks| {
    } else {
      AsciiWoven(runs, marks, k + 1);
      EndConcat(START, runs[k], marks[k]);
      AsciiConcat(START, runs[k], marks[k]);
      AsciiConcat(START, runs[k] + marks[k], Woven(runs, marks, k + 1));
    }
  }

  lemma MarkedByAscii(text: Text, spans: seq<nat>, n: nat, tags: MarkTags, look: Look)
    requires SpansFit(spans, n, |text|) && LookTags(tags, look) && AsciiTags(tags)
    ensures AsciiMarkup(START, MarkedBy(text, spans, n, tags))
  {
    var runs, marks := RunMarkups(text, spans, n), MarkMarkups(text, spans, n, tags);
    forall i | 0 <= i < |runs|
      ensures End(START, runs[i]) == START && AsciiMarkup(START, runs[i])
    {
      var run, lineStart := RunText(text, spans, n, i), i < |spans| && RunStart(spans, n, i) == 0;
      EscapedReadsBack(run, lineStart, PLAIN);
      EscapedAscii(PLAIN, Clean(run), if lineStart then LineStart else Words);
    }
    forall i | 0 <= i < |marks|
      ensures End(START, marks[i]) == START && AsciiMarkup(START, marks[i])
    {
      ReadMark(SpanText(text, spans, n, i), spans[i] == 0, tags, look);
      MarkAscii(SpanText(text, spans, n, i), spans[i] == 0, tags, look);
    }
    AsciiWoven(runs, marks, 0);
  }

  lemma NoMarkup(s: Text)
    requires Without(s, MARKUP)
    ensures AND !in s && SEMICOLON !in s && LESS !in s && MORE !in s
  {
  }

  lemma CutReadsPlain(t: Tables, text: Text, look: Look, c: Cut)
    requires KeysWithout(t, MARKUP) && CutOf(t, text, c)
    ensures End(State(InText, look), text[c.start..c.end]) == State(InText, look)
    ensures Shown(State(InText, look), text[c.start..c.end]) == Chars(text[c.start..c.end], look)
  {
    CutWithout(t, text, c, MARKUP);
    NoMarkup(text[c.start..c.end]);
    ReadPlain(look, text[c.start..c.end]);
  }

  /** An emoji that starts below U+0080 is a keycap: its second unit is not ASCII. */
  lemma AsciiStartIsKeycap(t: Tables, text: Text, c: Cut)
    requires CutOf(t, text, c) && text[c.start] < 0x80
    ensures c.start + 1 < |text| && text[c.start + 1] >= 0x80
  {
  }

  /** No emoji with a picture starts inside ASCII markup: there only a keycap could start,
      and its mark would have to follow the markup's last unit, which no key has. */
  lemma CutStartsInText(t: Tables, text: Text, st: State, c: Cut)
    requires KeysWithout(t, MARKUP) && CutOf(t, text, c)
    requires AsciiMarkup(st, text[c.start..])
    ensures st.mode.InText?
  {
    var s, face := text[c.start..], text[c.start..c.end];
    CutWithout(t, text, c, MARKUP);
    NoMarkup(face);
    assert face[0] == s[0] && face[0] in face;
    if s[0] < 0x80 {
      AsciiStartIsKeycap(t, text, c);
      assert s[1..][0] == text[c.start + 1];
      assert Next(st, s[0]).mode.InText?;
    }
  }

  /** Entities are ASCII from first unit to last; tags may be anything. */
  predicate AsciiEntities(st: State, s: Text)
    decreases |s|
  {
    s == [] || ((st.mode.InEntity? ==> s[0] < 0x80) && AsciiEntities(Next(st, s[0]), s[1..]))
  }

  lemma {:induction false} EntitiesConcat(st: State, a: Text, b: Text)
    ensures AsciiEntities(st, a + b) <==> AsciiEntities(st, a) && AsciiEntities(End(st, a), b)
    decreases |a|
  {
    if a == [] {
      ConcatNone(b);
    } else {
      EntitiesConcat(Next(st, a[0]), a[1..], b);
      ConcatFirst(a, b);
    }
  }

  lemma {:induction false} MarkupIsEntities(st: State, s: Text)
    requires AsciiMarkup(st, s)
    ensures AsciiEntities(st, s)
    decreases |s|
  {
    if s == [] {
    } else {
      MarkupIsEntities(Next(st, s[0]), s[1..]);
    }
  }

  /** No emoji with a picture starts inside an entity: only a keycap could, and there its mark
      would be part of the entity, or its first unit the entity's end. */
  lemma CutNotInEntity(t: Tables, text: Text, st: State, c: Cut)
    requires KeysWithout(t, MARKUP) && CutOf(t, text, c) && AsciiEntities(st, text[c.start..])
    ensures !st.mode.InEntity?
  {
    var s, face := text[c.start..], text[c.start..c.end];
    CutWithout(t, text, c, MARKUP);
    NoMarkup(face);
    assert face[0] == s[0] && face[0] in face;
    if s[0] < 0x80 {
      AsciiStartIsKeycap(t, text, c);
      assert s[1..][0] == text[c.start + 1];
      assert !Next(st, s[0]).mode.InEntity?;
    }
  }

  /** Where the reader is before unit `i`. */
  function StateAt(text: Text, i: nat): State
    requires i <= |text|
  {
    End(START, text[..i])
  }

  lemma StateOn(text: Text, i: nat, j: nat)
    requires i <= j <= |text|
    ensures StateAt(text, j) == End(StateAt(text, i), text[i..j])
  {
    EndConcat(START, text[..i], text[i..j]);
    assert text[..j] == text[..i] + text[i..j];
  }

  /** Cuts outside tags, in a text of ASCII entities that ends in text, all stand in text. */
  lemma {:induction false} StyledSettled(t: Tables, text: Text, cuts: seq<Cut>, from: nat)
    requires KeysWithout(t, MARKUP) && Ordered(cuts, from, |text|) && from <= |text|
    requires forall c <- cuts :: CutOf(t, text, c) && !StateAt(text, c.start).mode.InTag?
    requires AsciiEntities(START, text) && End(START, text).mode.InText?
    ensures Settled(StateAt(text, from), text, true, cuts, from)
    decreases |cuts|
  {
    OrderedBound(cuts, from, |text|);
    if cuts == [] {
      StateOn(text, from, |text|);
      assert text[..|text|] == text && text[from..] == text[from..|text|];
    } else {
      var c := cuts[0];
      OrderedBound(cuts[1..], c.end, |text|);
      StateOn(text, from, c.start);
      StateOn(text, c.start, c.end);
      CutSettled(t, text, c);
      StyledSettled(t, text, cuts[1..], c.end);
    }
  }

  /** At such a cut the reader is in the text, reads the emoji as it is, and stays there. */
  lemma CutSettled(t: Tables, text: Text, c: Cut)
    requires KeysWithout(t, MARKUP) && CutOf(t, text, c) && !StateAt(text, c.start).mode.InTag?
    requires AsciiEntities(START, text)
    ensures var at := StateAt(text, c.start);
            && at.mode.InText?
            && Shown(at, text[c.start..c.end]) == Chars(text[c.start..c.end], at.look)
            && End(at, text[c.start..c.end]) == at
  {
    var at := StateAt(text, c.start);
    assert text == text[..c.start] + text[c.start..];
    EntitiesConcat(START, text[..c.start], text[c.start..]);
    CutNotInEntity(t, text, at, c);
    CutReadsPlain(t, text, at.look, c);
  }

  /** A colour as Qt writes one: ASCII, and no end of a tag. */
  predicate PlainColor(color: Text) {
    forall u <- color :: u < 0x80 && u != MORE
  }

  lemma TagsAreAscii(color: Text)
    requires PlainColor(color)
    ensures AsciiTags(TagsOf(color))
  {
    var name := FONT + color + [QUOTE];
    assert forall u <- name :: u < 0x80;
  }

  lemma MarkedTextAscii(text: Text, query: Text, color: Text, lower: Text -> Text)
    requires PlainColor(color)
    ensures AsciiMarkup(START, MarkedText(text, query, color, lower))
  {
    if Matches(text, query, lower) {
      var tags := TagsOf(color);
      TagsGiveLook(color);
      TagsAreAscii(color);
      MarkedByAscii(text, MarkSpans(text, query, lower), |Term(query, lower)|, tags, MarkLook(color));
    }
  }

  /** The characters shown, bold or not. */
  function Letters(g: seq<Glyph>): Text {
    if g == [] then [] else Letter(g[0]) + Letters(g[1..])
  }

  function Letter(g: Glyph): Text {
    match g
    case Char(u, _) => [u]
    case Picture(_) => []
  }

  lemma {:induction false} LettersConcat(a: seq<Glyph>, b: seq<Glyph>)
    ensures Letters(a + b) == Letters(a) + Letters(b)
  {
    if a == [] {
      ConcatNone(b);
      ConcatNone(Letters(b));
    } else {
      LettersConcat(a[1..], b);
      ConcatFirst(a, b);
      Assoc(Letter(a[0]), Letters(a[1..]), Letters(b));
    }
  }

  lemma {:induction false} LettersOfChars(s: Text, look: Look)
    ensures Letters(Chars(s, look)) == s
  {
    if s == [] {
    } else {
      LettersOfChars(s[1..], look);
      assert Chars(s, look)[1..] == Chars(s[1..], look);
    }
  }

  lemma LettersJoin(x: seq<Glyph>, y: seq<Glyph>, a: Text, b: Text)
    requires Letters(x) == Clean(a) && Letters(y) == Clean(b)
    ensures Letters(x + y) == Clean(a + b)
  {
    LettersConcat(x, y);
    CleanConcat(a, b);
  }

  lemma LettersJoinThree(x: seq<Glyph>, y: seq<Glyph>, z: seq<Glyph>, a: Text, b: Text, c: Text)
    requires Letters(x) == Clean(a) && Letters(y) == Clean(b) && Letters(z) == Clean(c)
    ensures Letters(x + y + z) == Clean(a + b + c)
  {
    LettersJoin(x, y, a, b);
    LettersJoin(x + y, z, a + b, c);
  }

  /** Piece by piece, these glyphs are the letters of those texts. */
  predicate SameLetters(glyphs: seq<seq<Glyph>>, texts: seq<Text>) {
    |glyphs| == |texts| && forall i :: 0 <= i < |glyphs| ==> SameLettersAt(glyphs, texts, i)
  }

  predicate SameLettersAt(glyphs: seq<seq<Glyph>>, texts: seq<Text>, i: nat)
    requires i < |glyphs| == |texts|
  {
    Letters(glyphs[i]) == Clean(texts[i])
  }

  lemma LettersWovenLast(x: seq<seq<Glyph>>, y: seq<seq<Glyph>>, a: seq<Text>, b: seq<Text>)
    requires SameLetters(x, a) && SameLetters(y, b) && |x| == |y| + 1
    ensures Letters(Woven(x, y, |y|)) == Clean(Woven(a, b, |b|))
  {
    assert SameLettersAt(x, a, |y|);
    assert Woven(x, y, |y|) == x[|y|] && Woven(a, b, |b|) == a[|b|];
  }

  lemma LettersWovenStep(x: seq<seq<Glyph>>, y: seq<seq<Glyph>>, a: seq<Text>, b: seq<Text>, k: nat)
    requires SameLetters(x, a) && SameLetters(y, b) && |x| == |y| + 1 && k < |y|
    requires Letters(Woven(x, y, k + 1)) == Clean(Woven(a, b, k + 1))
    ensures Letters(Woven(x, y, k)) == Clean(Woven(a, b, k))
  {
    var s, c := Woven(x, y, k + 1), Woven(a, b, k + 1);
    assert SameLettersAt(x, a, k) && SameLettersAt(y, b, k);
    LettersJoinThree(x[k], y[k], s, a[k], b[k], c);
    assert Woven(x, y, k) == x[k] + y[k] + s && Woven(a, b, k) == a[k] + b[k] + c;
  }

  lemma {:induction false} LettersWoven(x: seq<seq<Glyph>>, y: seq<seq<Glyph>>, a: seq<Text>, b: seq<Text>, k: nat)
    requires SameLetters(x, a) && SameLetters(y, b) && |x| == |y| + 1 && k <= |y|
    ensures Letters(Woven(x, y, k)) == Clean(Woven(a, b, k))
    decreases |y| - k
  {
    if k == |y| {
      LettersWovenLast(x, y, a, b);
    } else {
      LettersWoven(x, y, a, b, k + 1);
      LettersWovenStep(x, y, a, b, k);
    }
  }

  function RunTexts(text: Text, spans: seq<nat>, n: nat): seq<Text>
    requires SpansFit(spans, n, |text|)
  {
    seq(|spans| + 1, k requires 0 <= k <= |spans| => RunText(text, spans, n, k))
  }

  function SpanTexts(text: Text, spans: seq<nat>, n: nat): seq<Text>
    requires SpansFit(spans, n, |text|)
  {
    seq(|spans|, k requires 0 <= k < |spans| => SpanText(text, spans, n, k))
  }

  lemma GlueThree(text: Text, i: nat, j: nat, k: nat)
    requires i <= j <= k <= |text|
    ensures text[i..] == text[i..j] + text[j..k] + text[k..]
  {
  }

  /** Runs and spans make up the text. */
  lemma {:induction false} TextWoven(text: Text, spans: seq<nat>, n: nat, a: seq<Text>, b: seq<Text>, k: nat)
    requires SpansFit(spans, n, |text|) && |a| == |spans| + 1 && |b| == |spans| && k <= |spans|
    requires forall i :: 0 <= i < |a| ==> a[i] == RunText(text, spans, n, i)
    requires forall i :: 0 <= i < |b| ==> b[i] == SpanText(text, spans, n, i)
    ensures Woven(a, b, k) == text[RunStart(spans, n, k)..]
    decreases |spans| - k
  {
    if k < |spans| {
      TextWoven(text, spans, n, a, b, k + 1);
      GlueThree(text, RunStart(spans, n, k), spans[k], spans[k] + n);
    } else {
      assert RunText(text, spans, n, k) == text[RunStart(spans, n, k)..];
    }
  }

  /** Whatever its look, the painted text is the text as it is to be shown. */
  lemma PaintedIsText(text: Text, spans: seq<nat>, n: nat, look: Look)
    requires SpansFit(spans, n, |text|)
    ensures Letters(Painted(text, spans, n, look)) == Clean(text)
  {
    var x, y := RunGlyphs(text, spans, n), SpanGlyphs(text, spans, n, look);
    var a, b := RunTexts(text, spans, n), SpanTexts(text, spans, n);
    forall i | 0 <= i < |x|
      ensures SameLettersAt(x, a, i)
    {
      LettersOfChars(Clean(a[i]), PLAIN);
    }
    forall i | 0 <= i < |y|
      ensures SameLettersAt(y, b, i)
    {
      LettersOfChars(Clean(b[i]), look);
    }
    LettersWoven(x, y, a, b, 0);
    TextWoven(text, spans, n, a, b, 0);
    assert text[0..] == text;
  }

  /** A searched message: what is drawn shows the whole text, bold and coloured exactly where the
      term was found, each emoji as its picture, with exactly that room; without pictures,
      exactly the text. */
  lemma MarkedTextKept(t: Tables, text: Text, query: Text, color: Text, lower: Text -> Text)
      returns (runs: seq<seq<Glyph>>, said: seq<seq<Glyph>>, emoji: seq<seq<Glyph>>)
    requires KeysWithout(t, MARKUP) && PlainColor(color) && Matches(text, query, lower)
    ensures var marked := MarkedText(text, query, color, lower);
            var whole := Painted(text, MarkSpans(text, query, lower), |Term(query, lower)|, MarkLook(color));
            var shown := ShownAll(START, DrawnChunks(t, text, marked));
            && Letters(whole) == Clean(text)
            && (Cuts(t, marked, true) == [] ==> shown == whole)
            && (Cuts(t, marked, true) != [] ==>
                  Pairs(shown, whole, marked, Cuts(t, marked, true), true, 0, runs, said, emoji))
  {
    var marked := MarkedText(text, query, color, lower);
    PaintedIsText(text, MarkSpans(text, query, lower), |Term(query, lower)|, MarkLook(color));
    assert text[0..] == text && marked[0..] == marked;
    MarkedShowsText(text, query, color, lower);
    MarkedNotEmpty(text, query, color, lower);
    runs, said, emoji := [], [], [];
    if Cuts(t, marked, true) == [] {
      assert ShownAll(START, [Markup(marked)]) == Shown(START, marked) + [];
    } else {
      MarkedCutsSettled(t, text, query, color, lower);
      runs, said, emoji := RenderedShows(START, marked, true, Cuts(t, marked, true), 0);
    }
  }

  lemma MarkedCutsSettled(t: Tables, text: Text, query: Text, color: Text, lower: Text -> Text)
    requires KeysWithout(t, MARKUP) && PlainColor(color) && Matches(text, query, lower)
    ensures var marked := MarkedText(text, query, color, lower);
            && Ordered(Cuts(t, marked, true), 0, |marked|)
            && Settled(START, marked, true, Cuts(t, marked, true), 0)
  {
    var marked := MarkedText(text, query, color, lower);
    CutsAreEmoji(t, marked, true);
    MarkedTextAscii(text, query, color, lower);
    MarkupIsEntities(START, marked);
    MarkedShowsText(text, query, color, lower);
    forall c | c in Cuts(t, marked, true)
      ensures CutOf(t, marked, c) && !StateAt(marked, c.start).mode.InTag?
    {
      assert marked == marked[..c.start] + marked[c.start..];
      AsciiConcat(START, marked[..c.start], marked[c.start..]);
      CutStartsInText(t, marked, StateAt(marked, c.start), c);
    }
    StyledSettled(t, marked, Cuts(t, marked, true), 0);
    assert marked[..0] == [];
  }
}
