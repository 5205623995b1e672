/** A reader of StyledText: drops tags, decodes entities, and says what is shown, in bold or
    not and in which colour. It is the reference the printers are measured against, so it
    spells names and characters out rather than take the printers' own. */
module Reader {
  import opened SeqFacts
  import opened Utf16
  import opened Escaping

  datatype Mode = InText | InTag(name: Text) | InEntity(name: Text)

  /** How text looks: bold or not, and the colour a tag gave it, none as it is. */
  datatype Look = Look(bold: bool, color: Text)

  const PLAIN: Look := Look(false, [])

  datatype State = State(mode: Mode, look: Look)

  datatype Glyph = Char(u: Unit, look: Look) | Picture(name: string)

  const START: State := State(InText, PLAIN)

  const BR: Text := [0x62, 0x72]
  const BOLD: Text := [0x62]
  const UNBOLD: Text := [0x2F, 0x62]

  const FONT_COLOR: Text := [0x66, 0x6F, 0x6E, 0x74, 0x20, 0x63, 0x6F, 0x6C, 0x6F, 0x72, 0x3D, 0x22]
  const UNFONT: Text := [0x2F, 0x66, 0x6F, 0x6E, 0x74]

  /** What a tag does to the look of what follows. */
  function Restyled(look: Look, name: Text): Look {
    if name == BOLD then look.(bold := true)
    else if name == UNBOLD then look.(bold := false)
    else if |name| > 12 && FONT_COLOR <= name && name[|name| - 1] == 0x22 then look.(color := name[12..|name| - 1])
    else if name == UNFONT then look.(color := [])
    else look
  }

  /** What an entity stands for, by its name: `amp`, `lt`, `gt`, `quot`, `nbsp`. */
  function Decoded(name: Text): Text {
    if name == [0x61, 0x6D, 0x70] then [0x26]
    else if name == [0x6C, 0x74] then [0x3C]
    else if name == [0x67, 0x74] then [0x3E]
    else if name == [0x71, 0x75, 0x6F, 0x74] then [0x22]
    else if name == [0x6E, 0x62, 0x73, 0x70] then [0x20]
    else [0x26] + name + [0x3B]
  }

  function Chars(s: Text, look: Look): (g: seq<Glyph>)
    ensures |g| == |s|
  {
    seq(|s|, i requires 0 <= i < |s| => Char(s[i], look))
  }

  function Next(st: State, u: Unit): State {
    match st.mode
    case InText =>
      if u == LESS then st.(mode := InTag([]))
      else if u == AND then st.(mode := InEntity([])) else st
    case InTag(name) =>
      if u != MORE then st.(mode := InTag(name + [u]))
      else State(InText, Restyled(st.look, name))
    case InEntity(name) =>
      if u != SEMICOLON then st.(mode := InEntity(name + [u])) else st.(mode := InText)
  }

  function ShownBy(st: State, u: Unit): seq<Glyph> {
    match st.mode
    case InText => if u == LESS || u == AND then [] else [Char(u, st.look)]
    case InTag(name) => if u == MORE && name == BR then [Char(LF, st.look)] else []
    case InEntity(name) => if u == SEMICOLON then Chars(Decoded(name), st.look) else []
  }

  /** State after reading `s`. */
  function End(st: State, s: Text): State
    decreases |s|
  {
    if s == [] then st else End(Next(st, s[0]), s[1..])
  }

  /** What `s` shows. */
  function Shown(st: State, s: Text): seq<Glyph>
    decreases |s|
  {
    if s == [] then [] else ShownBy(st, s[0]) + Shown(Next(st, s[0]), s[1..])
  }

  lemma {:induction false} EndConcat(st: State, a: Text, b: Text)
    ensures End(st, a + b) == End(End(st, a), b)
    decreases |a|
  {
    if a == [] {
      ConcatNone(b);
    } else {
      EndConcat(Next(st, a[0]), a[1..], b);
      ConcatFirst(a, b);
    }
  }

  lemma {:induction false} ShownConcat(st: State, a: Text, b: Text)
    ensures Shown(st, a + b) == Shown(st, a) + Shown(End(st, a), b)
    decreases |a|
  {
    if a == [] {
      ConcatNone(b);
      ConcatNone(Shown(st, b));
    } else {
      var next := Next(st, a[0]);
      ShownConcat(next, a[1..], b);
      ConcatFirst(a, b);
      Assoc(ShownBy(st, a[0]), Shown(next, a[1..]), Shown(End(st, a), b));
    }
  }

  lemma ReadConcat(st: State, a: Text, b: Text)
    ensures End(st, a + b) == End(End(st, a), b)
    ensures Shown(st, a + b) == Shown(st, a) + Shown(End(st, a), b)
  {
    EndConcat(st, a, b);
    ShownConcat(st, a, b);
  }

  lemma ReadOne(st: State, u: Unit)
    ensures End(st, [u]) == Next(st, u)
    ensures Shown(st, [u]) == ShownBy(st, u)
  {
  }

  /** Text without markup is shown as it is. */
  lemma {:induction false} ReadPlain(look: Look, s: Text)
    requires LESS !in s && AND !in s
    ensures End(State(InText, look), s) == State(InText, look)
    ensures Shown(State(InText, look), s) == Chars(s, look)
  {
    if s == [] {
    } else {
      ReadPlain(look, s[1..]);
    }
  }

  lemma {:induction false} ReadNames(look: Look, name: Text, more: Text)
    ensures SEMICOLON !in more ==> End(State(InEntity(name), look), more) == State(InEntity(name + more), look)
    ensures SEMICOLON !in more ==> Shown(State(InEntity(name), look), more) == []
    ensures MORE !in more ==> End(State(InTag(name), look), more) == State(InTag(name + more), look)
    ensures MORE !in more ==> Shown(State(InTag(name), look), more) == []
    decreases |more|
  {
    if more == [] {
      assert name + more == name;
    } else {
      ReadNames(look, name + [more[0]], more[1..]);
      assert (name + [more[0]]) + more[1..] == name + more;
    }
  }

  lemma ReadEntity(look: Look, name: Text)
    requires SEMICOLON !in name
    ensures End(State(InText, look), [AND] + name + [SEMICOLON]) == State(InText, look)
    ensures Shown(State(InText, look), [AND] + name + [SEMICOLON]) == Chars(Decoded(name), look)
  {
    var st := State(InText, look);
    ReadConcat(st, [AND] + name, [SEMICOLON]);
    ReadConcat(st, [AND], name);
    ReadOne(st, AND);
    ReadNames(look, [], name);
    assert [] + name == name;
    ReadOne(State(InEntity(name), look), SEMICOLON);
  }

  /** A tag shows nothing, but a line break; `b` turns bold on and `/b` off. */
  lemma ReadTag(look: Look, name: Text)
    requires MORE !in name
    ensures End(State(InText, look), [LESS] + name + [MORE])
            == State(InText, Restyled(look, name))
    ensures Shown(State(InText, look), [LESS] + name + [MORE])
            == if name == BR then [Char(LF, look)] else []
  {
    var st := State(InText, look);
    ReadConcat(st, [LESS] + name, [MORE]);
    ReadConcat(st, [LESS], name);
    ReadOne(st, LESS);
    ReadNames(look, [], name);
    assert [] + name == name;
    ReadOne(State(InTag(name), look), MORE);
  }

  lemma ReadEntityUnit(look: Look, u: Unit)
    ensures End(State(InText, look), Entity(u)) == State(InText, look)
    ensures Shown(State(InText, look), Entity(u)) == [Char(u, look)]
  {
    var name: Text := if u == AND then [0x61, 0x6D, 0x70] else if u == LESS then [0x6C, 0x74] else [0x67, 0x74];
    ReadEntity(look, name);
    if u == AND || u == LESS || u == MORE {
      assert Entity(u) == [AND] + name + [SEMICOLON];
      assert Decoded(name) == [u];
    } else {
      ReadOne(State(InText, look), u);
    }
  }

  lemma ReadNbsp(look: Look)
    ensures End(State(InText, look), NBSP) == State(InText, look)
    ensures Shown(State(InText, look), NBSP) == [Char(SPACE, look)]
  {
    var name: Text := [0x6E, 0x62, 0x73, 0x70];
    ReadEntity(look, name);
    assert NBSP == [AND] + name + [SEMICOLON];
  }

  lemma ReadEscapedUnit(look: Look, u: Unit, before: Before)
    ensures End(State(InText, look), EscapedUnit(u, before)) == State(InText, look)
    ensures Shown(State(InText, look), EscapedUnit(u, before)) == [Char(u, look)]
  {
    if u == LF {
      ReadTag(look, BR);
      assert BREAK == [LESS] + BR + [MORE];
    } else if u == SPACE {
      ReadOne(State(InText, look), SPACE);
      ReadNbsp(look);
    } else {
      ReadEntityUnit(look, u);
    }
  }

  lemma CharsFirst(s: Text, look: Look)
    requires s != []
    ensures Chars(s, look) == [Char(s[0], look)] + Chars(s[1..], look)
  {
  }

  /** Past what leaves the reader where it was, reading goes on as from the start. */
  lemma ReadOn(st: State, head: Text, rest: Text)
    requires End(st, head) == st
    ensures End(st, head + rest) == End(st, rest)
    ensures Shown(st, head + rest) == Shown(st, head) + Shown(st, rest)
  {
    ReadConcat(st, head, rest);
  }

  lemma {:induction false} ReadEscapedFrom(look: Look, clean: Text, before: Before)
    ensures End(State(InText, look), EscapedFrom(clean, before)) == State(InText, look)
    ensures Shown(State(InText, look), EscapedFrom(clean, before)) == Chars(clean, look)
  {
    if clean == [] {
    } else {
      ReadEscapedFrom(look, clean[1..], After(clean[0]));
      ReadEscapedUnit(look, clean[0], before);
      ReadOn(State(InText, look), EscapedUnit(clean[0], before), EscapedFrom(clean[1..], After(clean[0])));
      CharsFirst(clean, look);
    }
  }

  /** Printing and reading back: an escaped text shows the text, less carriage returns and
      with tabs as spaces, and leaves the reader where it was. */
  lemma EscapedReadsBack(text: Text, lineStart: bool, look: Look)
    ensures End(State(InText, look), Escaped(text, lineStart)) == State(InText, look)
    ensures Shown(State(InText, look), Escaped(text, lineStart)) == Chars(Clean(text), look)
  {
    ReadEscapedFrom(look, Clean(text), if lineStart then LineStart else Words);
  }

  // ----- no tag but a line break -----

  /** Every `<` starts a line break's tag and every `>` ends one. */
  predicate OnlyBreaks(s: Text)
    decreases |s|
  {
    if s == [] then true
    else if BREAK <= s then OnlyBreaks(s[4..])
    else s[0] != LESS && s[0] != MORE && OnlyBreaks(s[1..])
  }

  lemma {:induction false} BreaksPass(a: Text, b: Text)
    requires LESS !in a && MORE !in a
    ensures OnlyBreaks(a + b) == OnlyBreaks(b)
  {
    if a == [] {
      ConcatNone(b);
    } else {
      ConcatFirst(a, b);
      BreaksPass(a[1..], b);
    }
  }

  lemma {:induction false} EscapedFromBreaks(clean: Text, before: Before)
    ensures OnlyBreaks(EscapedFrom(clean, before))
  {
    if clean == [] {
    } else {
      var rest := EscapedFrom(clean[1..], After(clean[0]));
      EscapedFromBreaks(clean[1..], After(clean[0]));
      if clean[0] == LF {
        assert (BREAK + rest)[4..] == rest;
      } else {
        BreaksPass(EscapedUnit(clean[0], before), rest);
      }
    }
  }

  /** The only tag in an escaped text is a line break. */
  lemma EscapedOnlyBreaks(text: Text, lineStart: bool)
    ensures OnlyBreaks(Escaped(text, lineStart))
  {
    EscapedFromBreaks(Clean(text), if lineStart then LineStart else Words);
  }
}
