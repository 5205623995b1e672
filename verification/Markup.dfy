/** Plain text as StyledText: `escaped` of Emoji.js, and a reader that takes it back. */
module Escaping {
  import opened SeqFacts
  import opened Utf16

  const TAB: Unit := 0x09
  const LF: Unit := 0x0A
  const CR: Unit := 0x0D
  const SPACE: Unit := 0x20
  const AND: Unit := 0x26
  const SEMICOLON: Unit := 0x3B
  const LESS: Unit := 0x3C
  const MORE: Unit := 0x3E
  const QUOTE: Unit := 0x22

  const AMP: Text := [0x26, 0x61, 0x6D, 0x70, 0x3B]         // &amp;
  const LT: Text := [0x26, 0x6C, 0x74, 0x3B]                // &lt;
  const GT: Text := [0x26, 0x67, 0x74, 0x3B]                // &gt;
  const NBSP: Text := [0x26, 0x6E, 0x62, 0x73, 0x70, 0x3B]  // &nbsp;
  const QUOT: Text := [0x26, 0x71, 0x75, 0x6F, 0x74, 0x3B]  // &quot;
  const BREAK: Text := [0x3C, 0x62, 0x72, 0x3E]             // <br>

  // ----- the source's chain of replacements -----

  /** `s` with each unit `u` replaced. */
  function Replaced(s: Text, u: Unit, with: Text): Text {
    if s == [] then []
    else (if s[0] == u then with else [s[0]]) + Replaced(s[1..], u, with)
  }

  /** How many spaces `s` starts with. */
  function Spaces(s: Text): (n: nat)
    ensures n <= |s|
  {
    if s == [] || s[0] != SPACE then 0 else 1 + Spaces(s[1..])
  }

  function Repeated(n: nat): Text {
    if n == 0 then [] else NBSP + Repeated(n - 1)
  }

  /** Each run of two spaces or more: the first stays, the others do not break. */
  function RunsKept(s: Text): Text
    decreases |s|
  {
    if s == [] then []
    else
      var n := Spaces(s);
      if n >= 2 then [SPACE] + Repeated(n - 1) + RunsKept(s[n..])
      else [s[0]] + RunsKept(s[1..])
  }

  /** A space after a line feed does not break either. */
  function LineStartsKept(s: Text): Text
    decreases |s|
  {
    if s == [] then []
    else if |s| >= 2 && s[0] == LF && s[1] == SPACE then [LF] + NBSP + LineStartsKept(s[2..])
    else [s[0]] + LineStartsKept(s[1..])
  }

  // ----- what a text says -----

  /** The text as it is to be shown: no carriage returns, tabs as spaces. */
  function Clean(text: Text): Text {
    if text == [] then [] else CleanUnit(text[0]) + Clean(text[1..])
  }

  function CleanUnit(u: Unit): Text {
    if u == CR then [] else if u == TAB then [SPACE] else [u]
  }

  lemma {:induction false} CleanConcat(a: Text, b: Text)
    ensures Clean(a + b) == Clean(a) + Clean(b)
  {
    if a == [] {
      ConcatNone(b);
      ConcatNone(Clean(b));
    } else {
      CleanConcat(a[1..], b);
      ConcatFirst(a, b);
      Assoc(CleanUnit(a[0]), Clean(a[1..]), Clean(b));
    }
  }

  // ----- escaping in one pass -----

  /** What stands before a unit: text, a space, or the start of a line. */
  datatype Before = Words | ASpace | LineStart

  function Entity(u: Unit): Text {
    if u == AND then AMP else if u == LESS then LT else if u == MORE then GT else [u]
  }

  /** One unit of clean text, by what stands before it. */
  function EscapedUnit(u: Unit, before: Before): Text {
    if u == LF then BREAK
    else if u == SPACE then (if before == Words then [SPACE] else NBSP)
    else Entity(u)
  }

  function After(u: Unit): Before {
    if u == LF then LineStart else if u == SPACE then ASpace else Words
  }

  function EscapedFrom(clean: Text, before: Before): Text {
    if clean == [] then []
    else EscapedUnit(clean[0], before) + EscapedFrom(clean[1..], After(clean[0]))
  }

  /** What `escaped` makes of a run; at a line's start its first space must not break either. */
  function Escaped(text: Text, lineStart: bool): Text {
    EscapedFrom(Clean(text), if lineStart then LineStart else Words)
  }

  // The chain, step by step, as a pass that looks only at what stands before.

  lemma {:induction false} CleanByReplacing(text: Text)
    ensures Replaced(Replaced(text, CR, []), TAB, [SPACE]) == Clean(text)
  {
    if text == [] {
    } else {
      CleanByReplacing(text[1..]);
      var rest := Replaced(text[1..], CR, []);
      if text[0] == CR {
        assert [] + rest == rest;
      } else {
        assert ([text[0]] + rest)[1..] == rest;
      }
    }
  }

  /** The clean text with entities, spaces and line feeds as they are. */
  function WithEntities(clean: Text): Text {
    if clean == [] then [] else Entity(clean[0]) + WithEntities(clean[1..])
  }

  lemma {:induction false} ReplacedConcat(a: Text, b: Text, u: Unit, with: Text)
    ensures Replaced(a + b, u, with) == Replaced(a, u, with) + Replaced(b, u, with)
  {
    if a == [] {
      ConcatNone(b);
      ConcatNone(Replaced(b, u, with));
    } else {
      ReplacedConcat(a[1..], b, u, with);
      ConcatFirst(a, b);
      Assoc(if a[0] == u then with else [a[0]], Replaced(a[1..], u, with), Replaced(b, u, with));
    }
  }

  lemma {:induction false} ReplacedNone(s: Text, u: Unit, with: Text)
    requires u !in s
    ensures Replaced(s, u, with) == s
  {
    if s == [] {
    } else {
      ReplacedNone(s[1..], u, with);
    }
  }

  lemma ReplacedOne(v: Unit, u: Unit, with: Text)
    ensures Replaced([v], u, with) == if v == u then with else [v]
  {
  }

  lemma EntityByReplacing(u: Unit)
    ensures Replaced(Replaced(Replaced([u], AND, AMP), LESS, LT), MORE, GT) == Entity(u)
  {
    ReplacedOne(u, AND, AMP);
    ReplacedOne(u, LESS, LT);
    ReplacedOne(u, MORE, GT);
    ReplacedNone(AMP, LESS, LT);
    ReplacedNone(AMP, MORE, GT);
    ReplacedNone(LT, MORE, GT);
  }

  lemma {:induction false} EntitiesByReplacing(clean: Text)
    ensures Replaced(Replaced(Replaced(clean, AND, AMP), LESS, LT), MORE, GT) == WithEntities(clean)
  {
    if clean == [] {
    } else {
      EntitiesByReplacing(clean[1..]);
      var head, rest := [clean[0]], clean[1..];
      assert clean == head + rest;
      ReplacedConcat(head, rest, AND, AMP);
      var head1, rest1 := Replaced(head, AND, AMP), Replaced(rest, AND, AMP);
      ReplacedConcat(head1, rest1, LESS, LT);
      ReplacedConcat(Replaced(head1, LESS, LT), Replaced(rest1, LESS, LT), MORE, GT);
      EntityByReplacing(clean[0]);
    }
  }

  /** Spaces after a space kept from breaking. */
  function SpacesMarked(s: Text, afterSpace: bool): Text {
    if s == [] then []
    else (if s[0] == SPACE && afterSpace then NBSP else [s[0]]) + SpacesMarked(s[1..], s[0] == SPACE)
  }

  lemma {:induction false} MarkedRun(s: Text)
    ensures SpacesMarked(s, true) == Repeated(Spaces(s)) + SpacesMarked(s[Spaces(s)..], false)
  {
    if s == [] || s[0] != SPACE {
    } else {
      MarkedRun(s[1..]);
      assert s[1..][Spaces(s[1..])..] == s[Spaces(s)..];
    }
  }

  /** A run of two spaces or more, and what follows. */
  lemma LongRunMarked(s: Text)
    requires Spaces(s) >= 2 && RunsKept(s[Spaces(s)..]) == SpacesMarked(s[Spaces(s)..], false)
    ensures RunsKept(s) == SpacesMarked(s, false)
  {
    var n := Spaces(s);
    MarkedRun(s[1..]);
    assert s[1..][n - 1..] == s[n..];
    assert SpacesMarked(s, false) == [SPACE] + SpacesMarked(s[1..], true);
    Assoc([SPACE], Repeated(n - 1), SpacesMarked(s[n..], false));
  }

  /** One unit that is no such run. */
  lemma ShortRunMarked(s: Text)
    requires s != [] && Spaces(s) < 2 && RunsKept(s[1..]) == SpacesMarked(s[1..], false)
    ensures RunsKept(s) == SpacesMarked(s, false)
  {
    if s[0] == SPACE {
      MarkedRun(s[1..]);
      assert s[1..][0..] == s[1..];
      ConcatNone(SpacesMarked(s[1..], false));
    }
  }

  lemma {:induction false} RunsByMarking(s: Text)
    ensures RunsKept(s) == SpacesMarked(s, false)
    decreases |s|
  {
    if s == [] {
    } else if Spaces(s) >= 2 {
      RunsByMarking(s[Spaces(s)..]);
      LongRunMarked(s);
    } else {
      RunsByMarking(s[1..]);
      ShortRunMarked(s);
    }
  }

  /** Spaces kept from breaking by what stands before; line feeds as they are. */
  function SpacesKept(s: Text, before: Before): Text {
    if s == [] then []
    else (if s[0] == SPACE && before != Words then NBSP else [s[0]]) + SpacesKept(s[1..], After(s[0]))
  }

  lemma {:induction false} LineStartsPass(a: Text, b: Text)
    requires LF !in a
    ensures LineStartsKept(a + b) == a + LineStartsKept(b)
  {
    if a == [] {
      ConcatNone(b);
      ConcatNone(LineStartsKept(b));
    } else {
      LineStartsPass(a[1..], b);
      ConcatFirst(a, b);
      Assoc([a[0]], a[1..], LineStartsKept(b));
      assert [a[0]] + a[1..] == a;
    }
  }

  /** At a line feed: the space after it, if any, does not break. */
  lemma LineStartsAtFeed(rest: Text)
    ensures rest != [] && rest[0] == SPACE ==>
              LineStartsKept([LF] + rest) == [LF] + NBSP + LineStartsKept(rest[1..])
    ensures rest == [] || rest[0] != SPACE ==>
              LineStartsKept([LF] + rest) == [LF] + LineStartsKept(rest)
  {
    var s := [LF] + rest;
    ConsRest(LF, rest);
    if rest != [] {
      assert s[1] == rest[0] && s[2..] == rest[1..];
    }
  }

  /** A unit that is no line feed is passed over. */
  lemma LineStartsElsewhere(u: Unit, rest: Text, afterSpace: bool, kept: Text)
    requires u != LF && LineStartsKept(rest) == kept
    ensures var head := if u == SPACE && afterSpace then NBSP else [u];
            LineStartsKept(head + rest) == head + kept
  {
    LineStartsPass(if u == SPACE && afterSpace then NBSP else [u], rest);
  }

  lemma {:induction false} LineStartsByKeeping(s: Text, afterSpace: bool)
    ensures LineStartsKept(SpacesMarked(s, afterSpace))
            == SpacesKept(s, if afterSpace then ASpace else Words)
    decreases |s|
  {
    if s == [] {
    } else {
      LineStartsByKeeping(s[1..], s[0] == SPACE);
      if s[0] == LF {
        LineStartsAtFeed(SpacesMarked(s[1..], false));
        LineStartsAfterFeed(s[1..]);
        FeedStep(s, afterSpace);
      } else {
        LineStartsElsewhere(s[0], SpacesMarked(s[1..], s[0] == SPACE), afterSpace,
                            SpacesKept(s[1..], After(s[0])));
      }
    }
  }

  lemma FeedStep(s: Text, afterSpace: bool)
    requires s != [] && s[0] == LF
    requires LineStartsKept([LF] + SpacesMarked(s[1..], false)) == [LF] + SpacesKept(s[1..], LineStart)
    ensures LineStartsKept(SpacesMarked(s, afterSpace)) == SpacesKept(s, if afterSpace then ASpace else Words)
  {
  }

  /** A line after its feed, where the space it may start with is kept from breaking. */
  lemma LineStartsAfterFeed(s: Text)
    requires LineStartsKept(SpacesMarked(s, false)) == SpacesKept(s, Words)
    ensures var rest := SpacesMarked(s, false);
            SpacesKept(s, LineStart)
            == if rest != [] && rest[0] == SPACE then NBSP + LineStartsKept(rest[1..]) else LineStartsKept(rest)
  {
    if s != [] && s[0] == SPACE {
      var tail := SpacesMarked(s[1..], true);
      ConsRest(SPACE, tail);
      ConsRest(SPACE, LineStartsKept(tail));
      ConsRest(SPACE, SpacesKept(s[1..], ASpace));
      assert LineStartsKept([SPACE] + tail) == [SPACE] + LineStartsKept(tail);
    } else {
      LineStartUnused(s);
    }
  }

  lemma LineStartUnused(s: Text)
    requires s == [] || s[0] != SPACE
    ensures SpacesKept(s, LineStart) == SpacesKept(s, Words)
  {
  }

  lemma KeptPassOne(u: Unit, rest: Text, before: Before)
    requires u != LF && u != SPACE
    ensures Replaced(SpacesKept([u] + rest, before), LF, BREAK)
            == [u] + Replaced(SpacesKept(rest, Words), LF, BREAK)
  {
    ConsRest(u, rest);
    ReplacedConcat([u], SpacesKept(rest, Words), LF, BREAK);
    ReplacedOne(u, LF, BREAK);
  }

  lemma {:induction false} KeptPass(a: Text, b: Text, before: Before)
    requires a != [] && LF !in a && SPACE !in a
    ensures Replaced(SpacesKept(a + b, before), LF, BREAK)
            == a + Replaced(SpacesKept(b, Words), LF, BREAK)
  {
    ConcatFirst(a, b);
    KeptPassOne(a[0], a[1..] + b, before);
    if |a| == 1 {
      ConcatNone(b);
    } else {
      KeptPass(a[1..], b, Words);
      Assoc([a[0]], a[1..], Replaced(SpacesKept(b, Words), LF, BREAK));
    }
  }

  lemma KeptHere(u: Unit, rest: Text, before: Before)
    requires u == LF || u == SPACE
    ensures Replaced(SpacesKept([u] + rest, before), LF, BREAK)
            == EscapedUnit(u, before) + Replaced(SpacesKept(rest, After(u)), LF, BREAK)
  {
    var head := if u == SPACE && before != Words then NBSP else [u];
    ConsRest(u, rest);
    ReplacedConcat(head, SpacesKept(rest, After(u)), LF, BREAK);
    ReplacedOne(u, LF, BREAK);
    ReplacedNone(NBSP, LF, BREAK);
  }

  lemma {:induction false} EscapedByKeeping(clean: Text, before: Before)
    ensures Replaced(SpacesKept(WithEntities(clean), before), LF, BREAK) == EscapedFrom(clean, before)
  {
    if clean == [] {
    } else {
      var u, rest := clean[0], WithEntities(clean[1..]);
      EscapedByKeeping(clean[1..], After(u));
      if u == LF || u == SPACE {
        KeptHere(u, rest, before);
      } else {
        KeptPass(Entity(u), rest, before);
      }
    }
  }

  /** The source's chain of replacements does in seven passes what one does that looks a unit
      back. */
  method Escape(text: Text, lineStart: bool) returns (out: Text)
    ensures out == Escaped(text, lineStart)
  {
    out := Replaced(Replaced(text, CR, []), TAB, [SPACE]);
    CleanByReplacing(text);
    out := Replaced(Replaced(Replaced(out, AND, AMP), LESS, LT), MORE, GT);
    EntitiesByReplacing(Clean(text));
    ghost var safe := out;
    out := LineStartsKept(RunsKept(out));
    RunsByMarking(safe);
    LineStartsByKeeping(safe, false);
    if lineStart && out != [] && out[0] == SPACE {
      out := NBSP + out[1..];
    }
    out := Replaced(out, LF, BREAK);
    EscapedByKeeping(Clean(text), if lineStart then LineStart else Words);
  }
}
