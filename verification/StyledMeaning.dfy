/** Styled text that comes as such, links and all, keeps its meaning too. */
module StyledMeaning {
  import opened SeqFacts
  import opened Utf16
  import opened EmojiTables
  import opened EmojiScanner
  import opened Escaping
  import opened Reader
  import opened StyledText
  import opened Meaning
  import opened TagSafety
  import opened ShimMarkdown

  lemma {:induction false} PlainIsAscii(st: State, s: Text)
    requires PlainEntities(st, s)
    ensures AsciiEntities(st, s)
    decreases |s|
  {
    if s == [] {
    } else {
      PlainIsAscii(Next(st, s[0]), s[1..]);
    }
  }

  lemma StateNext(s: Text, i: nat)
    requires i < |s|
    ensures StateAt(s, i + 1) == Next(StateAt(s, i), s[i])
  {
    StateOn(s, i, i + 1);
    assert s[i..i + 1] == [s[i]];
    ReadOne(StateAt(s, i), s[i]);
  }

  lemma NoOpenInEntity(s: Text, i: nat)
    requires i < |s| && PlainEntities(START, s)
    ensures StateAt(s, i).mode.InEntity? ==> s[i] != LESS
  {
    assert s == s[..i] + s[i..];
    PlainFrom(s[..i], s[i..]);
  }

  lemma PlainFrom(before: Text, rest: Text)
    requires PlainEntities(START, before + rest) && rest != []
    ensures End(START, before).mode.InEntity? ==> rest[0] != LESS
  {
    PlainConcat(START, before, rest);
  }

  /** Where entities are well formed, the reader is in a tag exactly where one is open. */
  lemma {:induction false} ReaderKnowsTags(s: Text, p: nat)
    requires p <= |s| && PlainEntities(START, s)
    ensures StateAt(s, p).mode.InTag? <==> OpenBefore(s, p)
  {
    if p == 0 {
      assert s[..0] == [];
    } else {
      ReaderKnowsTags(s, p - 1);
      OpenStep(s, p - 1);
      StateNext(s, p - 1);
      NoOpenInEntity(s, p - 1);
    }
  }

  lemma UntouchedSettled(t: Tables, s: Text)
    requires KeysWithout(t, MARKUP) && PlainEntities(START, s) && End(START, s).mode.InText?
    requires !TagTouched(t, s)
    ensures Ordered(Cuts(t, s, true), 0, |s|) && Settled(START, s, true, Cuts(t, s, true), 0)
  {
    CutsAreEmoji(t, s, true);
    PlainIsAscii(START, s);
    forall c | c in Cuts(t, s, true)
      ensures CutOf(t, s, c) && !StateAt(s, c.start).mode.InTag?
    {
      assert OutsideTags(s, c.start, c.end);
      assert !OfTag(s, c.start);
      ReaderKnowsTags(s, c.start);
    }
    StyledSettled(t, s, Cuts(t, s, true), 0);
    assert s[..0] == [];
  }

  /** Any styled text of well-formed entities that ends in text and has no tag touched, which
      `TagTouchedExactly` decides: with pictures it shows what it showed, each emoji as its
      picture, with exactly the room `RoomFirst` and `RoomLast` spell out. */
  lemma StyledTextKept(t: Tables, s: Text)
      returns (runs: seq<seq<Glyph>>, said: seq<seq<Glyph>>, emoji: seq<seq<Glyph>>)
    requires KeysWithout(t, MARKUP) && PlainEntities(START, s) && End(START, s).mode.InText?
    requires !TagTouched(t, s) && Cuts(t, s, true) != []
    ensures Pairs(ShownAll(START, Pictured(t, s, true)), Shown(START, s),
                  s, Cuts(t, s, true), true, 0, runs, said, emoji)
  {
    UntouchedSettled(t, s);
    runs, said, emoji := RenderedShows(START, s, true, Cuts(t, s, true), 0);
    assert s[0..] == s;
  }

  /** So it is for any text where no tag opens directly after a joiner, whatever is in the tags. */
  lemma StyledLinksKept(t: Tables, s: Text)
      returns (runs: seq<seq<Glyph>>, said: seq<seq<Glyph>>, emoji: seq<seq<Glyph>>)
    requires KeysWithout(t, MARKUP) && PlainEntities(START, s) && End(START, s).mode.InText?
    requires NoTagJoined(s) && Cuts(t, s, true) != []
    ensures Pairs(ShownAll(START, Pictured(t, s, true)), Shown(START, s),
                  s, Cuts(t, s, true), true, 0, runs, said, emoji)
  {
    TagsUntouched(t, s);
    runs, said, emoji := StyledTextKept(t, s);
  }
}
