/** StyledText's folding of spaces, and that it takes none of a message's. */
module Folding {
  import opened SeqFacts
  import opened Utf16
  import opened JsText
  import opened EmojiTables
  import opened EmojiScanner
  import opened Escaping
  import opened Reader
  import opened StyledText
  import opened Marks
  import opened Meaning

  // ----- what folding does -----

  /** A literal space is dropped after another and at the start of a line. */
  function Unfolded(st: State, before: Before, u: Unit): Text {
    if st.mode.InText? && u == SPACE && before != Words then [] else [u]
  }

  predicate BreaksLine(name: Text) {
    Tag(name) == BREAK || Tag(name) == PRE || Tag(name) == PRE_END
  }

  /** What stands before the next unit. Tags are nothing but where they break the line. */
  function Onto(st: State, before: Before, u: Unit): Before {
    match st.mode
    case InText => if u == LESS || u == AND then before else After(u)
    case InTag(name) => if u == MORE && BreaksLine(name) then LineStart else before
    case InEntity(_) => if u == SEMICOLON then Words else before
  }

  function Folded(st: State, before: Before, s: Text): Text
    decreases |s|
  {
    if s == [] then [] else Unfolded(st, before, s[0]) + Folded(Next(st, s[0]), Onto(st, before, s[0]), s[1..])
  }

  function OntoEnd(st: State, before: Before, s: Text): Before
    decreases |s|
  {
    if s == [] then before else OntoEnd(Next(st, s[0]), Onto(st, before, s[0]), s[1..])
  }

  // ----- texts it leaves alone -----

  predicate Stays(st: State, before: Before, s: Text)
    decreases |s|
  {
    s == []
    || (!(st.mode.InText? && s[0] == SPACE && before != Words)
        && Stays(Next(st, s[0]), Onto(st, before, s[0]), s[1..]))
  }

  lemma {:induction false} FoldedIsShorter(st: State, before: Before, s: Text)
    ensures |Folded(st, before, s)| <= |s|
    decreases |s|
  {
    if s == [] {
    } else {
      FoldedIsShorter(Next(st, s[0]), Onto(st, before, s[0]), s[1..]);
    }
  }

  /** Folding changes nothing exactly where every literal space comes after words. */
  lemma {:induction false} StaysIsFolded(st: State, before: Before, s: Text)
    ensures Stays(st, before, s) <==> Folded(st, before, s) == s
    decreases |s|
  {
    if s == [] {
    } else {
      var next, onto := Next(st, s[0]), Onto(st, before, s[0]);
      StaysIsFolded(next, onto, s[1..]);
      FoldedIsShorter(next, onto, s[1..]);
      ConsRest(s[0], Folded(next, onto, s[1..]));
    }
  }

  lemma {:induction false} StaysConcat(st: State, before: Before, a: Text, b: Text)
    ensures Stays(st, before, a + b) <==> Stays(st, before, a) && Stays(End(st, a), OntoEnd(st, before, a), b)
    ensures OntoEnd(st, before, a + b) == OntoEnd(End(st, a), OntoEnd(st, before, a), b)
    decreases |a|
  {
    if a == [] {
      ConcatNone(b);
    } else {
      StaysConcat(Next(st, a[0]), Onto(st, before, a[0]), a[1..], b);
      ConcatFirst(a, b);
    }
  }

  /** What stays after `a` stays after `b`. */
  predicate Allows(a: Before, b: Before) {
    b == a || b == Words
  }

  lemma {:induction false} StaysMore(st: State, a: Before, b: Before, s: Text)
    requires Allows(a, b) && Stays(st, a, s)
    ensures Stays(st, b, s) && Allows(OntoEnd(st, a, s), OntoEnd(st, b, s))
    decreases |s|
  {
    if s == [] {
    } else {
      StaysMore(Next(st, s[0]), Onto(st, a, s[0]), Onto(st, b, s[0]), s[1..]);
    }
  }

  // ----- tags and entities -----

  lemma {:induction false} NameStays(look: Look, before: Before, name: Text, more: Text)
    ensures MORE !in more ==> Stays(State(InTag(name), look), before, more)
    ensures MORE !in more ==> OntoEnd(State(InTag(name), look), before, more) == before
    ensures SEMICOLON !in more ==> Stays(State(InEntity(name), look), before, more)
    ensures SEMICOLON !in more ==> OntoEnd(State(InEntity(name), look), before, more) == before
    decreases |more|
  {
    if more == [] {
    } else {
      NameStays(look, before, name + [more[0]], more[1..]);
    }
  }

  lemma OneStays(st: State, before: Before, u: Unit)
    ensures Stays(st, before, [u]) <==> !(st.mode.InText? && u == SPACE && before != Words)
    ensures OntoEnd(st, before, [u]) == Onto(st, before, u)
  {
  }

  /** A tag stays, and hides what is before it only where it breaks the line. */
  lemma TagStays(look: Look, before: Before, name: Text)
    requires MORE !in name
    ensures Stays(State(InText, look), before, Tag(name))
    ensures OntoEnd(State(InText, look), before, Tag(name)) == if BreaksLine(name) then LineStart else before
  {
    var st := State(InText, look);
    StaysConcat(st, before, [LESS] + name, [MORE]);
    StaysConcat(st, before, [LESS], name);
    EndConcat(st, [LESS], name);
    OneStays(st, before, LESS);
    ReadOne(st, LESS);
    ReadNames(look, [], name);
    ConcatNone(name);
    NameStays(look, before, [], name);
    OneStays(State(InTag(name), look), before, MORE);
  }

  lemma EntityStays(look: Look, before: Before, name: Text)
    requires SEMICOLON !in name
    ensures Stays(State(InText, look), before, [AND] + name + [SEMICOLON])
    ensures OntoEnd(State(InText, look), before, [AND] + name + [SEMICOLON]) == Words
  {
    var st := State(InText, look);
    StaysConcat(st, before, [AND] + name, [SEMICOLON]);
    StaysConcat(st, before, [AND], name);
    EndConcat(st, [AND], name);
    OneStays(st, before, AND);
    ReadOne(st, AND);
    ReadNames(look, [], name);
    ConcatNone(name);
    NameStays(look, before, [], name);
    OneStays(State(InEntity(name), look), before, SEMICOLON);
  }

  lemma NbspStaysPut(look: Look, before: Before)
    ensures Stays(State(InText, look), before, NBSP)
    ensures OntoEnd(State(InText, look), before, NBSP) == Words
  {
    var name: Text := [0x6E, 0x62, 0x73, 0x70];
    EntityStays(look, before, name);
    assert NBSP == [AND] + name + [SEMICOLON];
  }

  lemma BreakStays(look: Look, before: Before)
    ensures Stays(State(InText, look), before, BREAK)
    ensures OntoEnd(State(InText, look), before, BREAK) == LineStart
  {
    TagStays(look, before, BR);
    assert BREAK == Tag(BR);
  }

  // ----- an escaped run -----

  lemma EntityUnitStays(look: Look, before: Before, u: Unit)
    requires u != SPACE && u != LF
    ensures Stays(State(InText, look), before, Entity(u))
    ensures OntoEnd(State(InText, look), before, Entity(u)) == Words
  {
    var name: Text := if u == AND then [0x61, 0x6D, 0x70] else if u == LESS then [0x6C, 0x74] else [0x67, 0x74];
    EntityStays(look, before, name);
    if u == AND || u == LESS || u == MORE {
      assert Entity(u) == [AND] + name + [SEMICOLON];
    } else {
      OneStays(State(InText, look), before, u);
    }
  }

  /** Written for what stands before, a unit stays after that, and after words. */
  lemma EscapedUnitStays(look: Look, u: Unit, before: Before, at: Before)
    requires Allows(before, at)
    ensures Stays(State(InText, look), at, EscapedUnit(u, before))
    ensures Allows(After(u), OntoEnd(State(InText, look), at, EscapedUnit(u, before)))
  {
    if u == LF {
      BreakStays(look, at);
    } else if u == SPACE {
      NbspStaysPut(look, at);
      OneStays(State(InText, look), at, SPACE);
    } else {
      EntityUnitStays(look, at, u);
    }
  }

  /** What stands after a clean text. */
  function Left(clean: Text, before: Before): Before {
    if clean == [] then before else After(clean[|clean| - 1])
  }

  lemma StaysOn(st: State, at: Before, head: Text, rest: Text)
    requires End(st, head) == st && Stays(st, at, head) && Stays(st, OntoEnd(st, at, head), rest)
    ensures Stays(st, at, head + rest) && OntoEnd(st, at, head + rest) == OntoEnd(st, OntoEnd(st, at, head), rest)
  {
    StaysConcat(st, at, head, rest);
  }

  lemma {:induction false} EscapedStays(look: Look, clean: Text, before: Before, at: Before)
    requires Allows(before, at)
    ensures Stays(State(InText, look), at, EscapedFrom(clean, before))
    ensures Allows(Left(clean, before), OntoEnd(State(InText, look), at, EscapedFrom(clean, before)))
    decreases |clean|
  {
    if clean == [] {
    } else {
      var st, u := State(InText, look), clean[0];
      var head, rest := EscapedUnit(u, before), EscapedFrom(clean[1..], After(u));
      EscapedUnitStays(look, u, before, at);
      ReadEscapedUnit(look, u, before);
      EscapedStays(look, clean[1..], After(u), OntoEnd(st, at, head));
      StaysOn(st, at, head, rest);
    }
  }

  /** Folding changes nothing in an escaped text: no literal space follows another, or a line
      break, or starts a line. */
  lemma EscapedFoldsToItself(text: Text, lineStart: bool, look: Look)
    ensures Folded(State(InText, look), if lineStart then LineStart else Words, Escaped(text, lineStart))
            == Escaped(text, lineStart)
  {
    var before := if lineStart then LineStart else Words;
    EscapedStays(look, Clean(text), before, before);
    StaysIsFolded(State(InText, look), before, Escaped(text, lineStart));
  }

  // ----- marked text -----

  /** Neither end is white space. */
  predicate Trimmed(s: Text) {
    s != [] && !IsWhite(s[0]) && !IsWhite(s[|s| - 1])
  }

  /** Lower case has white space where the text has, puts none at the query's ends, and makes
      nothing of nothing. */
  predicate KeepsWhite(text: Text, query: Text, lower: Text -> Text) {
    && (|lower(text)| == |text| ==> forall i :: 0 <= i < |text| && IsWhite(text[i]) ==> IsWhite(lower(text)[i]))
    && (lower(Trim(query)) != [] ==> Trim(query) != [] && (Trimmed(Trim(query)) ==> Trimmed(lower(Trim(query)))))
  }

  lemma TermTrimmed(text: Text, query: Text, lower: Text -> Text)
    requires KeepsWhite(text, query, lower) && Term(query, lower) != []
    ensures Trimmed(Term(query, lower))
  {
  }

  lemma {:induction false} OccursUnits(s: Text, term: Text, p: nat, i: nat)
    requires OccursAt(s, term, p) && i < |term|
    ensures s[p + i] == term[i]
    decreases i
  {
    if i == 0 {
    } else {
      OccursUnits(s, term[1..], p + 1, i - 1);
    }
  }

  /** What was found for a trimmed term is trimmed. */
  lemma FoundTrimmed(text: Text, query: Text, lower: Text -> Text, p: nat)
    requires Matches(text, query, lower) && KeepsWhite(text, query, lower) && Trimmed(Term(query, lower))
    requires OccursAt(lower(text), Term(query, lower), p)
    ensures Trimmed(text[p..p + |Term(query, lower)|])
  {
    var term := Term(query, lower);
    OccursUnits(lower(text), term, p, 0);
    OccursUnits(lower(text), term, p, |term| - 1);
  }

  lemma CleanEnds(s: Text)
    requires Trimmed(s)
    ensures Clean(s) != [] && Clean(s)[0] == s[0] && Clean(s)[|Clean(s)| - 1] == s[|s| - 1]
  {
    var init, last := s[..|s| - 1], s[|s| - 1];
    CleanConcat(init, [last]);
    assert Clean([last]) == [last] + Clean([]);
    assert s == init + [last];
  }

  /** A run that does not start with a space is written the same whatever is before it. */
  lemma EscapedAnyStart(clean: Text, a: Before, b: Before)
    requires clean != [] && clean[0] != SPACE
    ensures EscapedFrom(clean, a) == EscapedFrom(clean, b)
  {
  }

  /** A trimmed run stays anywhere, and words are what it leaves. */
  lemma TrimmedStays(run: Text, lineStart: bool, look: Look, at: Before)
    requires Trimmed(run)
    ensures Stays(State(InText, look), at, Escaped(run, lineStart))
    ensures OntoEnd(State(InText, look), at, Escaped(run, lineStart)) == Words
  {
    var clean := Clean(run);
    CleanEnds(run);
    EscapedAnyStart(clean, if lineStart then LineStart else Words, at);
    EscapedStays(look, clean, at, at);
  }

  /** Tags round a mark that hide nothing. */
  ghost predicate SeeThrough(tags: MarkTags, look: Look) {
    && LookTags(tags, look)
    && (forall at :: Stays(START, at, tags.open) && OntoEnd(START, at, tags.open) == at)
    && forall at :: Stays(State(InText, look), at, tags.close) && OntoEnd(State(InText, look), at, tags.close) == at
  }

  lemma ShortTagBreaksNothing(name: Text)
    requires name == BOLD || name == UNBOLD || |name| > 4
    ensures !BreaksLine(name)
  {
    assert |Tag(name)| == |name| + 2;
    assert Tag(name)[1] == name[0];
    assert |name| > 1 ==> Tag(name)[2] == name[1];
  }

  lemma TwoTagsStay(look: Look, at: Before, a: Text, b: Text)
    requires MORE !in a && MORE !in b && !BreaksLine(a) && !BreaksLine(b) && a != BR && b != BR
    ensures Stays(State(InText, look), at, Tag(a) + Tag(b))
    ensures OntoEnd(State(InText, look), at, Tag(a) + Tag(b)) == at
  {
    var st := State(InText, look);
    ReadTag(look, a);
    TagStays(look, at, a);
    TagStays(End(st, Tag(a)).look, at, b);
    StaysConcat(st, at, Tag(a), Tag(b));
  }

  lemma TagsSeeThrough(color: Text)
    requires MORE !in color
    ensures SeeThrough(TagsOf(color), MarkLook(color))
  {
    var font := FONT + color + [QUOTE];
    TagsGiveLook(color);
    assert |font| > 4;
    ShortTagBreaksNothing(BOLD);
    ShortTagBreaksNothing(font);
    ShortTagBreaksNothing(FONT_END);
    ShortTagBreaksNothing(UNBOLD);
    forall at
      ensures Stays(START, at, OpenMark(color)) && OntoEnd(START, at, OpenMark(color)) == at
    {
      TwoTagsStay(PLAIN, at, BOLD, font);
    }
    forall at
      ensures Stays(State(InText, MarkLook(color)), at, CLOSE_MARK)
      ensures OntoEnd(State(InText, MarkLook(color)), at, CLOSE_MARK) == at
    {
      TwoTagsStay(MarkLook(color), at, FONT_END, UNBOLD);
    }
  }

  lemma MarkStays(run: Text, lineStart: bool, tags: MarkTags, look: Look, at: Before)
    requires Trimmed(run) && SeeThrough(tags, look)
    ensures var mark := tags.open + Escaped(run, lineStart) + tags.close;
            Stays(START, at, mark) && OntoEnd(START, at, mark) == Words
  {
    var body := Escaped(run, lineStart);
    EscapedReadsBack(run, lineStart, look);
    TrimmedStays(run, lineStart, look, at);
    EndConcat(START, tags.open, body);
    StaysConcat(START, at, tags.open, body);
    StaysConcat(START, at, tags.open + body, tags.close);
  }

  /** A run of its own, which leaves the reader as it was. */
  predicate RunStays(run: Text, at: Before) {
    End(START, run) == START && Stays(START, at, run)
  }

  /** A mark, which does so after anything, and leaves words. */
  ghost predicate MarkStaysPut(mark: Text) {
    End(START, mark) == START && forall at :: Stays(START, at, mark) && OntoEnd(START, at, mark) == Words
  }

  lemma WovenOne(run: Text, mark: Text, rest: Text, at: Before)
    requires RunStays(run, at) && MarkStaysPut(mark) && Stays(START, Words, rest)
    ensures Stays(START, at, run + mark + rest)
  {
    StaysConcat(START, at, run, mark);
    EndConcat(START, run, mark);
    StaysConcat(START, at, run + mark, rest);
  }

  lemma {:induction false} WovenStays(runs: seq<Text>, marks: seq<Text>, k: nat)
    requires |runs| == |marks| + 1 && k <= |marks|
    requires forall i :: 0 <= i < |runs| ==> RunStays(runs[i], if i == 0 then LineStart else Words)
    requires forall i :: 0 <= i < |marks| ==> MarkStaysPut(marks[i])
    ensures Stays(START, if k == 0 then LineStart else Words, Woven(runs, marks, k))
    decreases |marks| - k
  {
    assert RunStays(runs[k], if k == 0 then LineStart else Words);
    if k == |marks| {
    } else {
      WovenStays(runs, marks, k + 1);
      WovenOne(runs[k], marks[k], Woven(runs, marks, k + 1), if k == 0 then LineStart else Words);
    }
  }

  lemma MarkedByStays(text: Text, spans: seq<nat>, n: nat, tags: MarkTags, look: Look)
    requires SpansFit(spans, n, |text|) && n > 0 && spans != [] && SeeThrough(tags, look)
    requires forall k :: 0 <= k < |spans| ==> Trimmed(SpanText(text, spans, n, k))
    ensures Stays(START, LineStart, MarkedBy(text, spans, n, tags))
  {
    var runs, marks := RunMarkups(text, spans, n), MarkMarkups(text, spans, n, tags);
    forall i | 0 <= i < |runs|
      ensures RunStays(runs[i], if i == 0 then LineStart else Words)
    {
      var run, lineStart := RunText(text, spans, n, i), i < |spans| && RunStart(spans, n, i) == 0;
      var before := if lineStart then LineStart else Words;
      EscapedReadsBack(run, lineStart, PLAIN);
      EscapedStays(PLAIN, Clean(run), before, before);
    }
    forall i | 0 <= i < |marks|
      ensures MarkStaysPut(marks[i])
    {
      ReadMark(SpanText(text, spans, n, i), spans[i] == 0, tags, look);
      forall at
        ensures Stays(START, at, marks[i]) && OntoEnd(START, at, marks[i]) == Words
      {
        MarkStays(SpanText(text, spans, n, i), spans[i] == 0, tags, look, at);
      }
    }
    WovenStays(runs, marks, 0);
  }

  lemma MarkedStays(text: Text, query: Text, color: Text, lower: Text -> Text)
    requires Matches(text, query, lower) && MORE !in color && KeepsWhite(text, query, lower)
    ensures Stays(START, LineStart, MarkedText(text, query, color, lower))
  {
    var spans, term := MarkSpans(text, query, lower), Term(query, lower);
    TermTrimmed(text, query, lower);
    SpansApart(lower(text), term, 0);
    assert spans != [];
    forall k | 0 <= k < |spans|
      ensures Trimmed(SpanText(text, spans, |term|, k))
    {
      FoundTrimmed(text, query, lower, spans[k]);
    }
    TagsSeeThrough(color);
    MarkedByStays(text, spans, |term|, TagsOf(color), MarkLook(color));
  }

  /** Folding changes nothing in a whole marked text, runs, marks and all. */
  lemma MarkedFoldsToItself(text: Text, query: Text, color: Text, lower: Text -> Text)
    requires Matches(text, query, lower) && MORE !in color && KeepsWhite(text, query, lower)
    ensures Folded(START, LineStart, MarkedText(text, query, color, lower)) == MarkedText(text, query, color, lower)
  {
    MarkedStays(text, query, color, lower);
    StaysIsFolded(START, LineStart, MarkedText(text, query, color, lower));
  }

  // ----- with pictures -----

  /** Chunks as they are laid out: beside a picture a literal space is swallowed as well. */
  function FoldedAll(st: State, before: Before, chunks: seq<Chunk>): (folded: seq<Chunk>)
    ensures |folded| == |chunks|
    decreases |chunks|
  {
    if chunks == [] then []
    else match chunks[0]
      case Markup(m) =>
        var kept := Folded(st, before, m);
        var left := if |chunks| > 1 && chunks[1].Image? then WithoutLastSpace(kept) else kept;
        [Markup(left)] + FoldedAll(End(st, m), OntoEnd(st, before, m), chunks[1..])
      case Image(name) => [chunks[0]] + FoldedAll(st, ASpace, chunks[1..])
  }

  predicate IsWhiteRun(chunk: Chunk) {
    chunk.Markup? && AllWhite(chunk.text)
  }

  /** All but runs of white space between pictures stay as they are. */
  predicate AllStay(st: State, before: Before, chunks: seq<Chunk>)
    decreases |chunks|
  {
    chunks == []
    || match chunks[0]
       case Markup(m) =>
         && (AllWhite(m)
             || (Stays(st, before, m) && (|chunks| > 1 && chunks[1].Image? ==> WithoutLastSpace(m) == m)))
         && AllStay(End(st, m), OntoEnd(st, before, m), chunks[1..])
       case Image(name) => AllStay(st, ASpace, chunks[1..])
  }

  lemma {:induction false} AllStayFolded(st: State, before: Before, chunks: seq<Chunk>, k: nat)
    requires AllStay(st, before, chunks) && k < |chunks| && !IsWhiteRun(chunks[k])
    ensures FoldedAll(st, before, chunks)[k] == chunks[k]
    decreases |chunks|
  {
    match chunks[0] {
      case Markup(m) =>
        if k == 0 {
          StaysIsFolded(st, before, m);
        } else {
          AllStayFolded(End(st, m), OntoEnd(st, before, m), chunks[1..], k - 1);
        }
      case Image(name) =>
        if k > 0 {
          AllStayFolded(st, ASpace, chunks[1..], k - 1);
        }
    }
  }

  // ----- room -----

  /** What starts with a line break's tag stays after anything. */
  lemma LineStays(look: Look, a: Before, b: Before, s: Text, name: Text)
    requires MORE !in name && BreaksLine(name) && Tag(name) <= s && Stays(State(InText, look), a, s)
    ensures Stays(State(InText, look), b, s)
  {
    var rest := s[|Tag(name)|..];
    assert s == Tag(name) + rest;
    StaysConcat(State(InText, look), a, Tag(name), rest);
    StaysConcat(State(InText, look), b, Tag(name), rest);
    TagStays(look, a, name);
    TagStays(look, b, name);
  }

  const PRE_NAME: Text := [0x70, 0x72, 0x65]
  const PRE_END_NAME: Text := [0x2F, 0x70, 0x72, 0x65]

  lemma StartsLineStays(look: Look, a: Before, b: Before, s: Text)
    requires StartsLine(s) && Stays(State(InText, look), a, s)
    ensures Stays(State(InText, look), b, s)
  {
    assert Tag(BR) == BREAK && Tag(PRE_NAME) == PRE && Tag(PRE_END_NAME) == PRE_END;
    if BREAK <= s {
      LineStays(look, a, b, s, BR);
    } else if PRE <= s {
      LineStays(look, a, b, s, PRE_NAME);
    } else {
      LineStays(look, a, b, s, PRE_END_NAME);
    }
  }

  /** After a picture too, if it stayed after words. */
  lemma RoomBeforeStays(look: Look, piece: Text)
    requires Stays(State(InText, look), Words, piece)
    ensures Stays(State(InText, look), ASpace, RoomBefore(piece, true))
  {
    var st, rest := State(InText, look), WithoutFirstSpace(piece);
    if StartsLine(piece) {
      StartsLineStays(look, Words, ASpace, piece);
    } else {
      if rest != piece {
        assert piece == [SPACE] + rest;
        StaysConcat(st, Words, [SPACE], rest);
        ReadOne(st, SPACE);
        OneStays(st, Words, SPACE);
        StaysMore(st, ASpace, Words, rest);
      }
      NbspStaysPut(look, ASpace);
      ReadNbsp(look);
      StaysConcat(st, ASpace, NBSP, rest);
    }
  }

  lemma EndsInText(st: State, piece: Text)
    requires End(st, piece).mode.InText?
    ensures End(st, WithoutLastSpace(piece)).mode.InText?
  {
    var rest := WithoutLastSpace(piece);
    if rest != piece {
      assert piece == rest + [SPACE];
      EndConcat(st, rest, [SPACE]);
      ReadOne(End(st, rest), SPACE);
    }
  }

  lemma RoomAfterStays(st: State, before: Before, piece: Text)
    requires Stays(st, before, piece) && End(st, piece).mode.InText?
    ensures Stays(st, before, WithoutLastSpace(piece) + NBSP)
  {
    var rest := WithoutLastSpace(piece);
    EndsInText(st, piece);
    if rest != piece {
      assert piece == rest + [SPACE];
      StaysConcat(st, before, rest, [SPACE]);
    }
    NbspStaysPut(End(st, rest).look, OntoEnd(st, before, rest));
    StaysConcat(st, before, rest, NBSP);
  }

  lemma RoomyStays(look: Look, at: Before, piece: Text, after: bool, before: bool)
    requires End(State(InText, look), piece).mode.InText? && !AllWhite(piece)
    requires Stays(State(InText, look), if after then Words else at, piece)
    ensures Stays(State(InText, look), if after then ASpace else at, Roomy(piece, after, before))
  {
    var st := State(InText, look);
    var out := RoomBefore(piece, after);
    if after {
      RoomBeforeStays(look, piece);
      ReadRoomBefore(st, piece, true);
    }
    if before && !EndsLine(out) {
      RoomAfterStays(st, if after then ASpace else at, out);
    }
  }

  lemma EndsWithUnit(s: Text, end: Text)
    requires EndsWith(s, end) && end != []
    ensures s != [] && s[|s| - 1] == end[|end| - 1]
  {
    assert s[|s| - |end|..][|end| - 1] == s[|s| - 1];
  }

  /** No literal space faces a picture, for the picture to swallow. */
  lemma RoomyFacesNoSpace(piece: Text, after: bool)
    ensures !AllWhite(piece) ==> WithoutLastSpace(Roomy(piece, after, true)) == Roomy(piece, after, true)
  {
    var out := RoomBefore(piece, after);
    if EndsWith(out, BREAK) {
      EndsWithUnit(out, BREAK);
    } else if EndsWith(out, PRE) {
      EndsWithUnit(out, PRE);
    } else if EndsWith(out, PRE_END) {
      EndsWithUnit(out, PRE_END);
    }
  }

  // ----- the whole label -----

  /** The text from `from` on is written for what stands there: words, past a picture. */
  predicate Ready(st: State, at: Before, text: Text, styled: bool, from: nat)
    requires from <= |text|
  {
    if styled then Stays(st, if from > 0 then Words else at, text[from..])
    else from == 0 ==> at == LineStart
  }

  lemma PieceStays(st: State, at: Before, text: Text, styled: bool, from: nat, to: nat)
    requires from <= to <= |text| && st.mode.InText? && Ready(st, at, text, styled, from)
    ensures Stays(st, if from > 0 then Words else at, Piece(text[from..to], styled, from == 0))
  {
    var before := if from > 0 then Words else at;
    if styled {
      assert text[from..] == text[from..to] + text[to..];
      StaysConcat(st, before, text[from..to], text[to..]);
    } else {
      EscapedStays(st.look, Clean(text[from..to]), before, before);
    }
  }

  lemma RunKeeps(st: State, at: Before, text: Text, styled: bool, from: nat, to: nat, before: bool)
    requires from <= to <= |text| && st.mode.InText? && Ready(st, at, text, styled, from)
    requires SaidEnd(st, text[from..to], styled).mode.InText?
    ensures var run := Roomy(Piece(text[from..to], styled, from == 0), from > 0, before);
            && (AllWhite(run) || Stays(st, if from > 0 then ASpace else at, run))
            && (before && !AllWhite(run) ==> WithoutLastSpace(run) == run)
  {
    var piece := Piece(text[from..to], styled, from == 0);
    PieceStays(st, at, text, styled, from, to);
    PieceSays(st, text[from..to], styled, from == 0);
    if !AllWhite(piece) {
      RoomyStays(st.look, at, piece, from > 0, before);
      RoomyFacesNoSpace(piece, from > 0);
    }
  }

  /** Past a cut the text is ready for what a picture leaves. */
  lemma ReadyOn(st: State, at: Before, text: Text, styled: bool, from: nat, c: Cut)
    requires from <= c.start < c.end <= |text| && Ready(st, at, text, styled, from)
    requires SaidEnd(SaidEnd(st, text[from..c.start], styled), text[c.start..c.end], styled)
             == SaidEnd(st, text[from..c.start], styled)
    ensures Ready(SaidEnd(st, text[from..c.start], styled), ASpace, text, styled, c.end)
  {
    if styled {
      var run, face, rest := text[from..c.start], text[c.start..c.end], text[c.end..];
      var before := if from > 0 then Words else at;
      SplitThree(text, from, c.start, c.end);
      StaysConcat(st, before, run, face + rest);
      StaysConcat(End(st, run), OntoEnd(st, before, run), face, rest);
      StaysMore(End(st, run), OntoEnd(End(st, run), OntoEnd(st, before, run), face), Words, rest);
    }
  }

  lemma TwoChunks(st: State, before: Before, m: Text, name: string, rest: seq<Chunk>)
    requires AllWhite(m) || (Stays(st, before, m) && WithoutLastSpace(m) == m)
    requires AllStay(End(st, m), ASpace, rest)
    ensures AllStay(st, before, [Markup(m), Image(name)] + rest)
  {
    ConsRest(Image(name), rest);
    ConsRest(Markup(m), [Image(name)] + rest);
    assert [Markup(m), Image(name)] + rest == [Markup(m)] + ([Image(name)] + rest);
  }

  lemma {:induction false} RenderedStays(st: State, at: Before, text: Text, styled: bool, cuts: seq<Cut>, from: nat)
    requires Ordered(cuts, from, |text|) && from <= |text| && st.mode.InText?
    requires Settled(st, text, styled, cuts, from) && Ready(st, at, text, styled, from)
    requires if from > 0 then at == ASpace else cuts != []
    ensures AllStay(st, at, Rendered(text, styled, cuts, from))
    decreases |cuts|
  {
    OrderedBound(cuts, from, |text|);
    if cuts == [] {
      assert text[from..] == text[from..|text|];
      RunKeeps(st, at, text, styled, from, |text|, false);
    } else {
      var c := cuts[0];
      OrderedBound(cuts[1..], c.end, |text|);
      RunKeeps(st, at, text, styled, from, c.start, true);
      RunShows(st, text, styled, from, c.start);
      ReadyOn(st, at, text, styled, from, c);
      RenderedStays(SaidEnd(st, text[from..c.start], styled), ASpace, text, styled, cuts[1..], c.end);
      TwoChunks(st, at, RunMarkup(text, styled, from, c.start), c.name, Rendered(text, styled, cuts[1..], c.end));
    }
  }

  /** Laid out, no chunk loses a space, but runs of white space between pictures. */
  ghost predicate KeepsSpaces(chunks: seq<Chunk>) {
    forall k :: 0 <= k < |chunks| && !IsWhiteRun(chunks[k]) ==>
      FoldedAll(START, LineStart, chunks)[k] == chunks[k]
  }

  lemma AllStayKeeps(chunks: seq<Chunk>)
    requires AllStay(START, LineStart, chunks)
    ensures KeepsSpaces(chunks)
  {
    forall k | 0 <= k < |chunks| && !IsWhiteRun(chunks[k])
      ensures FoldedAll(START, LineStart, chunks)[k] == chunks[k]
    {
      AllStayFolded(START, LineStart, chunks, k);
    }
  }

  /** A plain text with pictures keeps its spaces. */
  lemma PlainFoldsToItself(t: Tables, text: Text)
    ensures KeepsSpaces(DrawnChunks(t, text, []))
  {
    var cuts := Cuts(t, text, false);
    if cuts != [] {
      CutsAreEmoji(t, text, false);
      PlainSettled(text, cuts, 0);
      RenderedStays(START, LineStart, text, false, cuts, 0);
      AllStayKeeps(DrawnChunks(t, text, []));
    }
  }

  /** So does a searched text, marks and pictures together. */
  lemma DrawnFoldsToItself(t: Tables, text: Text, query: Text, color: Text, lower: Text -> Text)
    requires KeysWithout(t, MARKUP) && PlainColor(color)
    requires Matches(text, query, lower) && KeepsWhite(text, query, lower)
    ensures KeepsSpaces(DrawnChunks(t, text, MarkedText(text, query, color, lower)))
  {
    var marked := MarkedText(text, query, color, lower);
    var cuts := Cuts(t, marked, true);
    MarkedStays(text, query, color, lower);
    MarkedNotEmpty(text, query, color, lower);
    if cuts == [] {
      StaysIsFolded(START, LineStart, marked);
    } else {
      MarkedCutsSettled(t, text, query, color, lower);
      assert marked[0..] == marked;
      RenderedStays(START, LineStart, marked, true, cuts, 0);
      AllStayKeeps(DrawnChunks(t, text, marked));
    }
  }

  // ----- the same by the numbers -----

  /** Of spaces in a row one is left, and at the start of a line, or after a break, none. */
  lemma FoldingDrops(look: Look, before: Before, s: Text)
    ensures Folded(State(InText, look), before, [0x20, 0x20] + s) == Folded(State(InText, look), before, [0x20] + s)
    ensures Folded(State(InText, look), LineStart, [0x20] + s) == Folded(State(InText, look), ASpace, s)
    ensures OntoEnd(State(InText, look), before, [0x3C, 0x62, 0x72, 0x3E]) == LineStart
  {
    var st := State(InText, look);
    ConsRest(SPACE, s);
    ConsRest(SPACE, [SPACE] + s);
    assert [0x20, 0x20] + s == [SPACE] + ([SPACE] + s);
    BreakStays(look, before);
  }

  /** A space written after `a` must not break: one is before it, or a line's start. Carriage
      returns do not count. */
  predicate MustHold(a: Text, lineStart: bool) {
    if a == [] then lineStart
    else if a[|a| - 1] == 0x0D then MustHold(a[..|a| - 1], lineStart)
    else a[|a| - 1] == 0x20 || a[|a| - 1] == 0x09 || a[|a| - 1] == 0x0A
  }

  lemma {:induction false} HoldsLeft(a: Text, lineStart: bool)
    ensures MustHold(a, lineStart) <==> Left(Clean(a), if lineStart then LineStart else Words) != Words
  {
    if a == [] {
    } else {
      HoldsLeft(a[..|a| - 1], lineStart);
      LeftOneMore(a[..|a| - 1], a[|a| - 1], if lineStart then LineStart else Words);
      assert a == a[..|a| - 1] + [a[|a| - 1]];
    }
  }

  lemma CleanOneMore(a: Text, u: Unit)
    ensures Clean(a + [u]) == Clean(a) + CleanUnit(u)
  {
    CleanConcat(a, [u]);
    ConcatNone(CleanUnit(u));
    assert [u][1..] == [];
  }

  lemma LeftOneMore(a: Text, u: Unit, before: Before)
    ensures Left(Clean(a + [u]), before)
            == if u == 0x0D then Left(Clean(a), before) else After(if u == 0x09 then 0x20 else u)
  {
    CleanOneMore(a, u);
  }

  lemma {:induction false} EscapedConcat(a: Text, b: Text, before: Before)
    ensures EscapedFrom(a + b, before) == EscapedFrom(a, before) + EscapedFrom(b, Left(a, before))
  {
    if a == [] {
      ConcatNone(b);
    } else {
      ConcatFirst(a, b);
      EscapedConcat(a[1..], b, After(a[0]));
      Assoc(EscapedUnit(a[0], before), EscapedFrom(a[1..], After(a[0])), EscapedFrom(b, Left(a, before)));
    }
  }

  lemma EscapedOne(u: Unit, before: Before)
    ensures EscapedFrom([u], before) == EscapedUnit(u, before)
  {
    assert EscapedFrom([u], before) == EscapedUnit(u, before) + EscapedFrom([], After(u));
  }

  /** A text is escaped unit by unit: nothing for a carriage return; `<br>`, `&amp;`, `&lt;`,
      `&gt;`; a tab as a space; a space as it is, so that a line may break there, unless it must
      hold, and then as `&nbsp;`; and any other as it is. */
  lemma EscapedByUnit(a: Text, u: Unit, lineStart: bool)
    ensures Escaped(a + [u], lineStart)
            == Escaped(a, lineStart)
               + if u == 0x0D then []
                 else if u == 0x0A then [0x3C, 0x62, 0x72, 0x3E]
                 else if u == 0x26 then [0x26, 0x61, 0x6D, 0x70, 0x3B]
                 else if u == 0x3C then [0x26, 0x6C, 0x74, 0x3B]
                 else if u == 0x3E then [0x26, 0x67, 0x74, 0x3B]
                 else if u == 0x20 || u == 0x09 then
                   if MustHold(a, lineStart) then [0x26, 0x6E, 0x62, 0x73, 0x70, 0x3B] else [0x20]
                 else [u]
  {
    var before := if lineStart then LineStart else Words;
    CleanOneMore(a, u);
    EscapedConcat(Clean(a), CleanUnit(u), before);
    HoldsLeft(a, lineStart);
    if u != 0x0D {
      EscapedOne(CleanUnit(u)[0], Left(Clean(a), before));
      assert CleanUnit(u) == [CleanUnit(u)[0]];
    }
  }
}
