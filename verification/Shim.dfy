/** Styled text the shim writes for a message's Markdown: `push_escaped` and `push_link` of
    rust/piirit-shim/src/markdown.rs. */
module ShimMarkdown {
  import opened SeqFacts
  import opened Utf16
  import opened Escaping
  import opened Reader

  const A_OPEN: Text := [0x61, 0x20, 0x68, 0x72, 0x65, 0x66, 0x3D, 0x22]  // a href="
  const A_CLOSE: Text := [0x2F, 0x61]                                      // /a

  function PushEscapedUnit(u: Unit): Text {
    if u == QUOTE then QUOT else Entity(u)
  }

  function PushEscaped(text: Text): Text {
    if text == [] then [] else PushEscapedUnit(text[0]) + PushEscaped(text[1..])
  }

  function LinkTag(url: Text): Text {
    [LESS] + (A_OPEN + PushEscaped(url) + [QUOTE]) + [MORE]
  }

  const LINK_CLOSE: Text := [LESS] + A_CLOSE + [MORE]

  /** A link: its address in the tag, characters of no tag escaped, and its text. */
  function Link(url: Text, text: Text): Text {
    LinkTag(url) + PushEscaped(text) + LINK_CLOSE
  }

  /** Entities are ASCII without `<` from first unit to last; tags may be anything. */
  predicate PlainEntities(st: State, s: Text)
    decreases |s|
  {
    s == []
    || ((st.mode.InEntity? ==> s[0] < 0x80 && s[0] != LESS) && PlainEntities(Next(st, s[0]), s[1..]))
  }

  lemma {:induction false} PlainConcat(st: State, a: Text, b: Text)
    ensures PlainEntities(st, a + b) <==> PlainEntities(st, a) && PlainEntities(End(st, a), b)
    decreases |a|
  {
    if a == [] {
      ConcatNone(b);
    } else {
      PlainConcat(Next(st, a[0]), a[1..], b);
      ConcatFirst(a, b);
    }
  }

  /** Text without `&` never has the reader in an entity. */
  lemma {:induction false} PlainNoEntity(st: State, s: Text)
    requires !st.mode.InEntity? && (st.mode.InTag? ==> MORE !in s) && (st.mode.InText? ==> AND !in s)
    requires st.mode.InText? ==> LESS !in s
    ensures PlainEntities(st, s)
    decreases |s|
  {
    if s == [] {
    } else {
      PlainNoEntity(Next(st, s[0]), s[1..]);
    }
  }

  lemma {:induction false} PlainAscii(st: State, s: Text)
    requires LESS !in s && forall u <- s :: u < 0x80
    ensures PlainEntities(st, s)
    decreases |s|
  {
    if s == [] {
    } else {
      assert s[0] in s && forall u <- s[1..] :: u in s;
      PlainAscii(Next(st, s[0]), s[1..]);
    }
  }

  lemma {:induction false} PushedHasNoBracket(text: Text)
    ensures LESS !in PushEscaped(text) && MORE !in PushEscaped(text) && QUOTE !in PushEscaped(text)
  {
    if text == [] {
    } else {
      PushedHasNoBracket(text[1..]);
    }
  }

  predicate NeedsNoEscape(text: Text) {
    AND !in text && LESS !in text && MORE !in text && QUOTE !in text
  }

  /** What needs no escape is written as it is. */
  lemma {:induction false} PushedAsIs(text: Text)
    requires NeedsNoEscape(text)
    ensures PushEscaped(text) == text
  {
    if text == [] {
    } else {
      PushedAsIs(text[1..]);
    }
  }

  lemma PlainOne(st: State, u: Unit)
    requires !st.mode.InEntity?
    ensures PlainEntities(st, [u])
  {
  }

  lemma LinkAsIs(url: Text, text: Text)
    requires NeedsNoEscape(url) && NeedsNoEscape(text)
    ensures Link(url, text) == ([LESS] + (A_OPEN + url + [QUOTE]) + [MORE]) + text + LINK_CLOSE
  {
    PushedAsIs(url);
    PushedAsIs(text);
  }

  lemma ReadPushedUnit(look: Look, u: Unit)
    ensures End(State(InText, look), PushEscapedUnit(u)) == State(InText, look)
    ensures Shown(State(InText, look), PushEscapedUnit(u)) == [Char(u, look)]
  {
    var name: Text := [0x71, 0x75, 0x6F, 0x74];
    if u == QUOTE {
      ReadEntity(look, name);
      assert QUOT == [AND] + name + [SEMICOLON];
    } else {
      ReadEntityUnit(look, u);
    }
  }

  lemma PushedUnitIsPlain(look: Look, u: Unit)
    ensures PlainEntities(State(InText, look), PushEscapedUnit(u))
  {
    if PushEscapedUnit(u) == [u] {
      PlainOne(State(InText, look), u);
    } else {
      PushedHasNoBracket([u]);
      ConcatNone(PushEscapedUnit(u));
      PlainAscii(State(InText, look), PushEscapedUnit(u));
    }
  }

  /** Pushed text shows as it is, in well-formed entities, and leaves the reader in text. */
  lemma {:induction false} PushedReadsBack(look: Look, text: Text)
    ensures End(State(InText, look), PushEscaped(text)) == State(InText, look)
    ensures Shown(State(InText, look), PushEscaped(text)) == Chars(text, look)
    ensures PlainEntities(State(InText, look), PushEscaped(text))
  {
    if text == [] {
    } else {
      var st, head, rest := State(InText, look), PushEscapedUnit(text[0]), PushEscaped(text[1..]);
      PushedReadsBack(look, text[1..]);
      ReadPushedUnit(look, text[0]);
      PushedUnitIsPlain(look, text[0]);
      ReadOn(st, head, rest);
      CharsFirst(text, look);
      PlainConcat(st, head, rest);
    }
  }

  lemma ReadPlainTag(look: Look, name: Text)
    requires MORE !in name && name != BR && Restyled(look, name) == look
    ensures var tag := [LESS] + name + [MORE];
            && End(State(InText, look), tag) == State(InText, look)
            && Shown(State(InText, look), tag) == []
            && PlainEntities(State(InText, look), tag)
  {
    var st := State(InText, look);
    ReadTag(look, name);
    PlainConcat(st, [LESS] + name, [MORE]);
    PlainConcat(st, [LESS], name);
    ReadConcat(st, [LESS], name);
    ReadOne(st, LESS);
    PlainNoEntity(State(InTag([]), look), name);
    ReadNames(look, [], name);
  }

  lemma ReadLinkTag(look: Look, url: Text)
    ensures End(State(InText, look), LinkTag(url)) == State(InText, look)
    ensures Shown(State(InText, look), LinkTag(url)) == []
    ensures PlainEntities(State(InText, look), LinkTag(url))
  {
    var name := A_OPEN + PushEscaped(url) + [QUOTE];
    PushedHasNoBracket(url);
    assert |name| > 2 && name[0] == 0x61 && FONT_COLOR[0] == 0x66 && UNFONT[0] == 0x2F;
    ReadPlainTag(look, name);
  }

  /** A link shows its text and nothing of its address, whatever they are. */
  lemma LinkReads(look: Look, url: Text, text: Text)
    ensures End(State(InText, look), Link(url, text)) == State(InText, look)
    ensures Shown(State(InText, look), Link(url, text)) == Chars(text, look)
    ensures PlainEntities(State(InText, look), Link(url, text))
    ensures 0x22 !in PushEscaped(url) && 0x3E !in PushEscaped(url)
  {
    PushedHasNoBracket(url);
    var st, tag, body := State(InText, look), LinkTag(url), PushEscaped(text);
    ReadLinkTag(look, url);
    PushedReadsBack(look, text);
    ReadPlainTag(look, A_CLOSE);
    ReadConcat(st, tag + body, LINK_CLOSE);
    ReadConcat(st, tag, body);
    PlainConcat(st, tag + body, LINK_CLOSE);
    PlainConcat(st, tag, body);
  }
}
