/** The emoji scanner of Emoji.js. */
module EmojiScanner {
  import opened SeqFacts
  import opened Utf16
  import opened EmojiTables

  const SELECTOR: Unit := 0xFE0F
  const TEXT_SELECTOR: Unit := 0xFE0E
  const KEYCAP: Unit := 0x20E3
  const JOINER: Unit := 0x200D
  const OPEN: Unit := 0x3C   // <
  const CLOSE: Unit := 0x3E  // >

  // ----- keys -----

  /** What tables are looked up by: U+FE0F may or may not be spelled, so it is left out. */
  function Key(emoji: Text): Text {
    if emoji == [] then []
    else if emoji[0] == SELECTOR then Key(emoji[1..])
    else [emoji[0]] + Key(emoji[1..])
  }

  /** Whether the text starts with a skin tone's pair. */
  predicate ToneFirst(s: Text) {
    |s| >= 2 && s[0] == 0xD83C && 0xDFFB <= s[1] <= 0xDFFF
  }

  function WithoutTones(s: Text): Text {
    if s == [] then []
    else if ToneFirst(s) then WithoutTones(s[2..])
    else [s[0]] + WithoutTones(s[1..])
  }

  /** The key with every tone's pair left out, for pictures that come in one tone only. */
  function Untoned(emoji: Text): Text {
    WithoutTones(Key(emoji))
  }

  function Lookup(t: Tables, emoji: Text): Option<string> {
    if Key(emoji) in t.byKey then Some(t.byKey[Key(emoji)])
    else if Untoned(emoji) in t.byKey then Some(t.byKey[Untoned(emoji)])
    else None
  }

  /** The lookup as callers see it, the empty string standing for no picture. */
  function PictureFor(t: Tables, emoji: Text): string {
    if emoji == [] then ""
    else match Lookup(t, emoji)
      case Some(name) => name
      case None => ""
  }

  // ----- one emoji -----

  predicate IsRegional(point: int) {
    0x1F1E6 <= point <= 0x1F1FF
  }

  predicate IsTone(point: int) {
    0x1F3FB <= point <= 0x1F3FF
  }

  /** Selector, keycap mark, skin tone or tag character: belongs to the emoji before it. */
  predicate IsModifier(point: int) {
    point == SELECTOR || point == KEYCAP || IsTone(point) || 0xE0020 <= point <= 0xE007F
  }

  /** Whether an emoji may start with `point` when `next` follows it. */
  predicate Starts(t: Tables, point: int, next: int) {
    0x1F000 <= point <= 0x1FAFF
    || (0 <= point <= 0xFFFF && point in t.bmpStarts
        && (point >= 0xA9 || next == SELECTOR || next == KEYCAP))
  }

  /** Where the modifiers and joins from `end` on stop. */
  function TailEnd(text: Text, end: nat): (e: nat)
    requires end <= |text|
    ensures end <= e <= |text|
    decreases |text| - end
  {
    if end == |text| then end
    else
      var more := CodeAt(text, end);
      if IsModifier(more) then TailEnd(text, end + Width(more))
      else if more == JOINER && end + 1 < |text| then
        TailEnd(text, end + 1 + Width(CodeAt(text, end + 1)))
      else end
  }

  /** Where a try at `i` stops: past the emoji there, else where it began. */
  function EndOf(t: Tables, text: Text, i: nat): (e: nat)
    requires i < |text|
    ensures i <= e <= |text|
  {
    var point := CodeAt(text, i);
    var after := i + Width(point);
    var next := if after < |text| then CodeAt(text, after) else 0;
    if !Starts(t, point, next) then i
    else if IsRegional(point) then (if IsRegional(next) then after + 2 else after)
    else TailEnd(text, after)
  }

  method EmojiEnd(t: Tables, text: Text, i: nat) returns (end: nat)
    requires i < |text|
    ensures end == EndOf(t, text, i)
  {
    var point := CodeAt(text, i);
    var first := Width(point);
    var next := if i + first < |text| then CodeAt(text, i + first) else 0;
    if point < 0x1F000 || point > 0x1FAFF {
      var keycap := next == SELECTOR || next == KEYCAP;
      if point > 0xFFFF || !(point in t.bmpStarts && (point >= 0xA9 || keycap)) {
        return i;
      }
    }
    end := i + first;
    if IsRegional(point) {
      return if IsRegional(next) then end + 2 else end;
    }
    while end < |text|
      invariant end <= |text|
      invariant TailEnd(text, end) == EndOf(t, text, i)
    {
      var more := CodeAt(text, end);
      var step := Width(more);
      if IsModifier(more) {
        end := end + step;
      } else if more == JOINER && end + 1 < |text| {
        end := end + 1 + Width(CodeAt(text, end + 1));
      } else {
        break;
      }
    }
  }

  // ----- a whole message -----

  /** One emoji to draw: units `start` to `end` of the text, and its picture. The source's
      flat list holds these three in a row. */
  datatype Cut = Cut(start: nat, end: nat, name: string)

  /** Picture for the emoji at `i` to `end`, unless it is meant as text. */
  function Drawable(t: Tables, text: Text, i: nat, end: nat): Option<string>
    requires i < end <= |text|
  {
    var emoji := text[i..end];
    var name := Lookup(t, emoji);
    if name.Some?
       && !(Key(emoji) in t.textStyle && Key(emoji) == emoji)
       && !(text[i] < 0xD800 && end < |text| && text[end] == TEXT_SELECTOR)
    then name else None
  }

  /** The cut for that emoji; none when it is not drawn. */
  function CutHere(t: Tables, text: Text, i: nat, end: nat): (cuts: seq<Cut>)
    requires i < end <= |text|
  {
    match Drawable(t, text, i, end)
    case Some(name) => [Cut(i, end, name)]
    case None => []
  }

  /** End of the emoji the scan tries at `i`: none below `#`. */
  function TriedEnd(t: Tables, text: Text, i: nat): (e: nat)
    requires i < |text|
    ensures i <= e <= |text|
  {
    if text[i] < 0x23 then i else EndOf(t, text, i)
  }

  /** The scan of the message from `i` on. */
  function Scan(t: Tables, text: Text, styled: bool, inTag: bool, i: nat): seq<Cut>
    requires i <= |text|
    decreases |text| - i
  {
    if i == |text| then []
    else if styled && (inTag || text[i] == OPEN) then
      Scan(t, text, styled, text[i] != CLOSE, i + 1)
    else
      var end := TriedEnd(t, text, i);
      if end == i then Scan(t, text, styled, inTag, i + 1)
      else CutHere(t, text, i, end) + Scan(t, text, styled, inTag, end)
  }

  predicate MayHold(t: Tables, text: Text) {
    exists i :: 0 <= i < |text| && InClass(t.mayHold, text[i])
  }

  /** What `emojiCuts` returns: the quick look first, then the scan. */
  function Cuts(t: Tables, text: Text, styled: bool): seq<Cut> {
    if text == [] || !MayHold(t, text) then [] else Scan(t, text, styled, false, 0)
  }

  method EmojiCuts(t: Tables, text: Text, styled: bool) returns (cuts: seq<Cut>)
    ensures cuts == Cuts(t, text, styled)
  {
    cuts := [];
    if text == [] || !MayHold(t, text) {
      return;
    }
    var inTag := false;
    var i := 0;
    while i < |text|
      invariant i <= |text|
      invariant cuts + Scan(t, text, styled, inTag, i) == Scan(t, text, styled, false, 0)
      decreases |text| - i
    {
      var code := text[i];
      if styled && (inTag || code == OPEN) {
        inTag := code != CLOSE;
        i := i + 1;
        continue;
      }
      var end := i;
      if code >= 0x23 {
        end := EmojiEnd(t, text, i);
      }
      if end == i {
        i := i + 1;
        continue;
      }
      var cut := CutAt(t, text, i, end);
      Assoc(cuts, cut, Scan(t, text, styled, inTag, end));
      cuts := cuts + cut;
      i := end;
    }
  }

  /** The scan's lookup of one emoji. */
  method CutAt(t: Tables, text: Text, i: nat, end: nat) returns (cut: seq<Cut>)
    requires i < end <= |text|
    ensures cut == CutHere(t, text, i, end)
  {
    var emoji := text[i..end];
    var bare := Key(emoji);
    var name := if bare in t.byKey then Some(t.byKey[bare]) else None;
    if name.None? && Untoned(emoji) in t.byKey {
      name := Some(t.byKey[Untoned(emoji)]);
    }
    if name.Some? && !(bare in t.textStyle && bare == emoji)
       && !(text[i] < 0xD800 && end < |text| && text[end] == TEXT_SELECTOR) {
      return [Cut(i, end, name.value)];
    }
    cut := [];
  }

  /** What a reader takes for the first character: all of an emoji, or both halves of a pair. */
  method FirstOf(t: Tables, text: Text) returns (first: Text)
    ensures text == [] ==> first == []
    ensures text != [] ==> 0 < |first| <= |text| && first == text[..|first|]
    ensures text != [] && EndOf(t, text, 0) > 0 ==> |first| == EndOf(t, text, 0)
    ensures text != [] && EndOf(t, text, 0) == 0 ==> |first| == Width(CodeAt(text, 0))
    ensures !SplitsPair(text, |first|)
  {
    if text == [] {
      return [];
    }
    var end := EmojiEnd(t, text, 0);
    EmojiWhole(t, text, 0);
    first := text[..if end > 0 then end else if CodeAt(text, 0) > 0xFFFF then 2 else 1];
  }

  // ----- what every cut is -----

  /** Cuts are non-empty, in bounds, in order and apart, from unit `from` of `n` on. */
  predicate Ordered(cuts: seq<Cut>, from: nat, n: nat) {
    if cuts == [] then from <= n
    else from <= cuts[0].start < cuts[0].end && Ordered(cuts[1..], cuts[0].end, n)
  }

  lemma OrderedFrom(cuts: seq<Cut>, from: nat, later: nat, n: nat)
    requires Ordered(cuts, later, n) && from <= later
    ensures Ordered(cuts, from, n)
  {
  }

  lemma {:induction false} OrderedBound(cuts: seq<Cut>, from: nat, n: nat)
    requires Ordered(cuts, from, n)
    ensures from <= n
    ensures forall c <- cuts :: from <= c.start < c.end <= n
  {
    if cuts == [] {
    } else {
      OrderedBound(cuts[1..], cuts[0].end, n);
    }
  }

  lemma {:induction false} ScanOrdered(t: Tables, text: Text, styled: bool, inTag: bool, i: nat)
    requires i <= |text|
    ensures Ordered(Scan(t, text, styled, inTag, i), i, |text|)
    decreases |text| - i
  {
    if i == |text| {
    } else {
      if styled && (inTag || text[i] == OPEN) {
        ScanOrdered(t, text, styled, text[i] != CLOSE, i + 1);
        OrderedFrom(Scan(t, text, styled, text[i] != CLOSE, i + 1), i, i + 1, |text|);
      } else {
        var end := TriedEnd(t, text, i);
        if end == i {
          ScanOrdered(t, text, styled, inTag, i + 1);
          OrderedFrom(Scan(t, text, styled, inTag, i + 1), i, i + 1, |text|);
        } else {
          ScanOrdered(t, text, styled, inTag, end);
          var rest := Scan(t, text, styled, inTag, end);
          OrderedFrom(rest, i, end, |text|);
          var cuts := CutHere(t, text, i, end) + rest;
          assert cuts == rest || cuts[1..] == rest;
        }
      }
    }
  }

  /** An emoji as long as it can be, with its picture. */
  predicate CutOf(t: Tables, text: Text, c: Cut) {
    && c.start < c.end <= |text|
    && c.end == TriedEnd(t, text, c.start)
    && Drawable(t, text, c.start, c.end) == Some(c.name)
  }

  lemma {:induction false} ScanCuts(t: Tables, text: Text, styled: bool, inTag: bool, i: nat)
    requires i <= |text|
    ensures forall c <- Scan(t, text, styled, inTag, i) :: CutOf(t, text, c)
    decreases |text| - i
  {
    if i == |text| {
    } else {
      if styled && (inTag || text[i] == OPEN) {
        ScanCuts(t, text, styled, text[i] != CLOSE, i + 1);
      } else {
        var end := TriedEnd(t, text, i);
        ScanCuts(t, text, styled, inTag, if end == i then i + 1 else end);
      }
    }
  }

  /** For any units, well-formed or not, the cuts are in bounds, in order and apart, and each
      is a whole emoji with the picture it is drawn as. */
  lemma CutsAreEmoji(t: Tables, text: Text, styled: bool)
    ensures forall c <- Cuts(t, text, styled) :: CutOf(t, text, c)
    ensures Ordered(Cuts(t, text, styled), 0, |text|)
  {
    ScanCuts(t, text, styled, false, 0);
    ScanOrdered(t, text, styled, false, 0);
  }

  /** The text before each cut, from `from` on, and after the last. */
  function RunsOf(text: Text, cuts: seq<Cut>, from: nat): (runs: seq<Text>)
    requires Ordered(cuts, from, |text|)
    ensures |runs| == |cuts| + 1
  {
    OrderedBound(cuts, from, |text|);
    if cuts == [] then [text[from..]]
    else [text[from..cuts[0].start]] + RunsOf(text, cuts[1..], cuts[0].end)
  }

  function EmojiOf(text: Text, cuts: seq<Cut>): (emoji: seq<Text>)
    requires forall c <- cuts :: c.start < c.end <= |text|
    ensures |emoji| == |cuts|
  {
    if cuts == [] then []
    else
      assert cuts[0] in cuts && forall c <- cuts[1..] :: c in cuts;
      [text[cuts[0].start..cuts[0].end]] + EmojiOf(text, cuts[1..])
  }

  lemma {:induction false} RunsAndEmoji(text: Text, cuts: seq<Cut>, from: nat)
    requires Ordered(cuts, from, |text|)
    ensures from <= |text| && forall c <- cuts :: c.start < c.end <= |text|
    ensures Woven(RunsOf(text, cuts, from), EmojiOf(text, cuts), 0) == text[from..]
    decreases |cuts|
  {
    OrderedBound(cuts, from, |text|);
    if cuts == [] {
    } else {
      var c, rest := cuts[0], cuts[1..];
      RunsAndEmoji(text, rest, c.end);
      var run, emoji := text[from..c.start], text[c.start..c.end];
      WovenFirst(run, RunsOf(text, rest, c.end), emoji, EmojiOf(text, rest));
      assert text[from..] == run + emoji + text[c.end..];
    }
  }

  /** Cuts and what is between them make up the text: nothing is lost and nothing is said twice. */
  lemma CutsAndRunsAreText(t: Tables, text: Text, styled: bool)
    ensures Ordered(Cuts(t, text, styled), 0, |text|)
    ensures forall c <- Cuts(t, text, styled) :: c.start < c.end <= |text|
    ensures Woven(RunsOf(text, Cuts(t, text, styled), 0), EmojiOf(text, Cuts(t, text, styled)), 0) == text
  {
    CutsAreEmoji(t, text, styled);
    RunsAndEmoji(text, Cuts(t, text, styled), 0);
    assert text[0..] == text;
  }

  // ----- no cut splits a pair -----

  lemma {:induction false} TailWhole(text: Text, end: nat)
    requires end <= |text| && !SplitsPair(text, end)
    ensures !SplitsPair(text, TailEnd(text, end))
    decreases |text| - end
  {
    if end == |text| {
    } else {
      var more := CodeAt(text, end);
      if IsModifier(more) {
        TailWhole(text, end + Width(more));
      } else if more == JOINER && end + 1 < |text| {
        TailWhole(text, end + 1 + Width(CodeAt(text, end + 1)));
      }
    }
  }

  lemma EmojiWhole(t: Tables, text: Text, i: nat)
    requires i < |text| && !SplitsPair(text, i)
    ensures !SplitsPair(text, EndOf(t, text, i))
    ensures !SplitsPair(text, i + Width(CodeAt(text, i)))
  {
    var after := i + Width(CodeAt(text, i));
    TailWhole(text, after);
    if after < |text| && IsRegional(CodeAt(text, after)) {
      assert IsLow(text[after + 1]);
    }
  }

  /** For any units, well-formed or not, no edge of a cut splits a surrogate pair. */
  lemma CutsKeepPairs(t: Tables, text: Text, styled: bool)
    requires WholeStarts(t)
    ensures forall c <- Cuts(t, text, styled) ::
              !SplitsPair(text, c.start) && !SplitsPair(text, c.end)
  {
    CutsAreEmoji(t, text, styled);
    forall c | c in Cuts(t, text, styled)
      ensures !SplitsPair(text, c.start) && !SplitsPair(text, c.end)
    {
      assert !IsLow(text[c.start]);
      EmojiWhole(t, text, c.start);
    }
  }
}
