/** A message of a few emoji drawn big: `onlyEmoji` and `bigLayout` of Emoji.js. */
module BigEmoji {
  import opened SeqFacts
  import opened Utf16
  import opened JsText
  import opened EmojiTables
  import opened EmojiScanner
  import opened Escaping

  /** A message with more pictures than this is drawn at text size. */
  const LIMIT: nat := 5

  // ----- which messages -----

  /** White space, but nothing after the last cut. */
  predicate OnlyCuts(text: Text, cuts: seq<Cut>, from: nat)
    requires Ordered(cuts, from, |text|)
  {
    OrderedBound(cuts, from, |text|);
    if cuts == [] then from == |text|
    else AllWhite(text[from..cuts[0].start]) && OnlyCuts(text, cuts[1..], cuts[0].end)
  }

  predicate IsOnlyEmoji(t: Tables, text: Text) {
    var trimmed := Trim(text);
    CutsAreEmoji(t, trimmed, false);
    && 0 < |trimmed| <= 16 * LIMIT
    && |Cuts(t, trimmed, false)| <= LIMIT
    && OnlyCuts(trimmed, Cuts(t, trimmed, false), 0)
  }

  method OnlyEmoji(t: Tables, text: Text) returns (only: bool)
    ensures only <==> IsOnlyEmoji(t, text)
  {
    var trimmed := Trim(text);
    if |trimmed| == 0 || |trimmed| > 16 * LIMIT {
      return false;
    }
    CutsAreEmoji(t, trimmed, false);
    var cuts := EmojiCuts(t, trimmed, false);
    if |cuts| > LIMIT {
      return false;
    }
    var from: nat := 0;
    assert cuts[0..] == cuts;
    for k := 0 to |cuts|
      invariant Ordered(cuts[k..], from, |trimmed|)
      invariant OnlyCuts(trimmed, cuts, 0) == OnlyCuts(trimmed, cuts[k..], from)
    {
      OrderedBound(cuts[k..], from, |trimmed|);
      assert cuts[k..][0] == cuts[k] && cuts[k..][1..] == cuts[k + 1..];
      if !AllWhite(trimmed[from..cuts[k].start]) {
        return false;
      }
      from := cuts[k].end;
    }
    return from == |trimmed|;
  }

  predicate InCut(cuts: seq<Cut>, i: nat) {
    exists c <- cuts :: c.start <= i < c.end
  }

  lemma InCutFirst(cuts: seq<Cut>, from: nat, n: nat, i: nat)
    requires cuts != [] && Ordered(cuts, from, n)
    ensures i < cuts[0].start ==> !InCut(cuts, i)
    ensures cuts[0].start <= i < cuts[0].end ==> InCut(cuts, i)
    ensures i >= cuts[0].end ==> (InCut(cuts, i) <==> InCut(cuts[1..], i))
  {
    OrderedBound(cuts, from, n);
    OrderedBound(cuts[1..], cuts[0].end, n);
    assert cuts == [cuts[0]] + cuts[1..];
  }

  /** From `from` on, whatever is not in a cut is white space. */
  predicate ElseWhite(text: Text, cuts: seq<Cut>, from: nat) {
    forall i :: from <= i < |text| ==> InCut(cuts, i) || IsWhite(text[i])
  }

  lemma ElseWhiteFirst(text: Text, cuts: seq<Cut>, from: nat)
    requires cuts != [] && Ordered(cuts, from, |text|) && cuts[0].start <= cuts[0].end <= |text|
    ensures ElseWhite(text, cuts, from)
            <==> AllWhite(text[from..cuts[0].start]) && ElseWhite(text, cuts[1..], cuts[0].end)
  {
    var c := cuts[0];
    forall i: nat
      ensures i < c.start ==> !InCut(cuts, i)
      ensures c.start <= i < c.end ==> InCut(cuts, i)
      ensures i >= c.end ==> (InCut(cuts, i) <==> InCut(cuts[1..], i))
    {
      InCutFirst(cuts, from, |text|, i);
    }
    assert forall i :: from <= i < c.start ==> text[from..c.start][i - from] == text[i];
  }

  lemma {:induction false} OnlyCutsCover(text: Text, cuts: seq<Cut>, from: nat)
    requires Ordered(cuts, from, |text|) && (text != [] ==> !IsWhite(text[|text| - 1]))
    ensures OnlyCuts(text, cuts, from) <==> ElseWhite(text, cuts, from)
    decreases |cuts|
  {
    OrderedBound(cuts, from, |text|);
    if cuts == [] {
      assert from < |text| ==> !InCut(cuts, |text| - 1);
    } else {
      ElseWhiteFirst(text, cuts, from);
      OnlyCutsCover(text, cuts[1..], cuts[0].end);
    }
  }

  /** A message is drawn big exactly when, trimmed, it is not empty and not too long, has five
      pictures at most, and is white space but for them. */
  lemma OnlyEmojiExactly(t: Tables, text: Text)
    ensures IsOnlyEmoji(t, text)
            <==> var trimmed := Trim(text);
                 && 0 < |trimmed| <= 80
                 && |Cuts(t, trimmed, false)| <= 5
                 && forall i :: 0 <= i < |trimmed| ==>
                      InCut(Cuts(t, trimmed, false), i) || IsWhite(trimmed[i])
  {
    var trimmed := Trim(text);
    CutsAreEmoji(t, trimmed, false);
    OnlyCutsCover(trimmed, Cuts(t, trimmed, false), 0);
  }

  // ----- where each picture goes -----

  /** Sizes in px: a picture's edge and the width to wrap at. */
  datatype Sheet = Sheet(edge: nat, maxWidth: real) {
    /** The sliver between pictures: 0.08 of an edge, rounded. */
    function Gap(): nat { (edge * 8 + 50) / 100 }
    /** A sender's space: a quarter of an edge, rounded. */
    function Space(): nat { (edge * 25 + 50) / 100 }
    function Line(): nat { edge + Gap() }
  }

  /** A picture's left edge, and its line counted from the top. */
  datatype Spot = Spot(x: nat, row: nat)

  /** Past the characters between two pictures: a line feed starts a line, any other character
      but a carriage return is a space. */
  function Flow(sheet: Sheet, at: Spot, between: Text): Spot
    decreases |between|
  {
    if between == [] then at
    else if between[0] == CR then Flow(sheet, at, between[1..])
    else if between[0] == LF then Flow(sheet, Spot(0, at.row + 1), between[1..])
    else Flow(sheet, Spot(at.x + sheet.Space(), at.row), between[1..])
  }

  predicate Fits(sheet: Sheet, x: nat) {
    x == 0 || (x + sheet.edge) as real <= sheet.maxWidth
  }

  /** Where the picture goes: on a new line if it does not fit on this one. */
  function Settle(sheet: Sheet, at: Spot): Spot {
    if Fits(sheet, at.x) then at else Spot(0, at.row + 1)
  }

  function Beyond(sheet: Sheet, spot: Spot): Spot {
    Spot(spot.x + sheet.edge + sheet.Gap(), spot.row)
  }

  /** The texts before each picture. */
  function Gaps(text: Text, cuts: seq<Cut>, from: nat): (gaps: seq<Text>)
    requires Ordered(cuts, from, |text|)
    ensures |gaps| == |cuts|
  {
    OrderedBound(cuts, from, |text|);
    if cuts == [] then [] else [text[from..cuts[0].start]] + Gaps(text, cuts[1..], cuts[0].end)
  }

  /** The greedy layout: each picture as soon as it fits. */
  function Greedy(sheet: Sheet, gaps: seq<Text>, at: Spot): (spots: seq<Spot>)
    ensures |spots| == |gaps|
    decreases |gaps|
  {
    if gaps == [] then []
    else
      var spot := Settle(sheet, Flow(sheet, at, gaps[0]));
      [spot] + Greedy(sheet, gaps[1..], Beyond(sheet, spot))
  }

  datatype Placed = Placed(picture: string, x: nat, y: nat)

  datatype Layout = Layout(pictures: seq<Placed>, width: nat, height: nat)

  /** The top edge of a line. */
  function Top(sheet: Sheet, row: nat): nat {
    if row == 0 then 0 else Top(sheet, row - 1) + sheet.Line()
  }

  /** The spots in px. */
  function Place(sheet: Sheet, cuts: seq<Cut>, spots: seq<Spot>): seq<Placed>
    requires |cuts| == |spots|
  {
    seq(|cuts|, i requires 0 <= i < |cuts| =>
      Placed(cuts[i].name, spots[i].x, Top(sheet, spots[i].row)))
  }

  function Widest(sheet: Sheet, spots: seq<Spot>): nat {
    if spots == [] then 0
    else
      var rest := Widest(sheet, spots[..|spots| - 1]);
      var right := spots[|spots| - 1].x + sheet.edge;
      if right > rest then right else rest
  }

  function BigSpots(t: Tables, text: Text, sheet: Sheet): seq<Spot> {
    var trimmed := Trim(text);
    CutsAreEmoji(t, trimmed, false);
    Greedy(sheet, Gaps(trimmed, Cuts(t, trimmed, false), 0), Spot(0, 0))
  }

  lemma {:induction false} FlowWithoutReturns(sheet: Sheet, at: Spot, between: Text)
    ensures Flow(sheet, at, Replaced(between, CR, [])) == Flow(sheet, at, between)
    decreases |between|
  {
    if between == [] {
    } else {
      var rest := Replaced(between[1..], CR, []);
      if between[0] == CR {
        FlowWithoutReturns(sheet, at, between[1..]);
        assert Replaced(between, CR, []) == rest;
      } else {
        var next := if between[0] == LF then Spot(0, at.row + 1) else Spot(at.x + sheet.Space(), at.row);
        FlowWithoutReturns(sheet, next, between[1..]);
        assert ([between[0]] + rest)[1..] == rest;
        WithoutReturns(between);
      }
    }
  }

  lemma {:induction false} WithoutReturns(s: Text)
    ensures CR !in Replaced(s, CR, [])
  {
    if s == [] {
    } else {
      WithoutReturns(s[1..]);
    }
  }

  lemma FlowOne(sheet: Sheet, at: Spot, shown: Text, i: nat)
    requires i < |shown| && CR !in shown
    ensures Flow(sheet, at, shown[i..])
            == Flow(sheet, if shown[i] == LF then Spot(0, at.row + 1) else Spot(at.x + sheet.Space(), at.row),
                    shown[i + 1..])
  {
    assert shown[i..][1..] == shown[i + 1..];
    assert shown[i] in shown;
  }

  /** Past one text between pictures, a character at a time. */
  method FlowOver(sheet: Sheet, x0: nat, ghost row0: nat, y0: nat, between: Text)
      returns (x: nat, ghost row: nat, y: nat)
    requires y0 == Top(sheet, row0)
    ensures Spot(x, row) == Flow(sheet, Spot(x0, row0), between)
    ensures y == Top(sheet, row)
  {
    x, row, y := x0, row0, y0;
    var shown := Replaced(between, CR, []);
    FlowWithoutReturns(sheet, Spot(x0, row0), between);
    WithoutReturns(between);
    ghost var end := Flow(sheet, Spot(x0, row0), between);
    assert shown[0..] == shown;
    for i := 0 to |shown|
      invariant Flow(sheet, Spot(x, row), shown[i..]) == end
      invariant y == Top(sheet, row)
    {
      FlowOne(sheet, Spot(x, row), shown, i);
      if shown[i] == LF {
        x := 0;
        y := y + sheet.Line();
        row := row + 1;
      } else {
        x := x + sheet.Space();
      }
    }
  }

  /** After `k` pictures the next run of text flows from `at`. */
  ghost predicate Flowing(sheet: Sheet, text: Text, cuts: seq<Cut>, k: nat, from: nat, at: Spot,
                          spots: seq<Spot>, all: seq<Spot>)
  {
    && k <= |cuts| && |spots| == k && Ordered(cuts[k..], from, |text|)
    && spots + Greedy(sheet, Gaps(text, cuts[k..], from), at) == all
    && (k > 0 ==> at.row == spots[k - 1].row)
  }

  /** The first `k` pictures as they are placed. */
  ghost predicate Built(sheet: Sheet, cuts: seq<Cut>, k: nat, spots: seq<Spot>, pictures: seq<Placed>, width: nat) {
    && k <= |cuts| && |spots| == k
    && pictures == Place(sheet, cuts[..k], spots)
    && width == Widest(sheet, spots)
  }

  /** Past the text before a picture to where the picture goes. */
  method Advance(sheet: Sheet, x0: nat, ghost row0: nat, y0: nat, between: Text)
      returns (x: nat, ghost row: nat, y: nat)
    requires y0 == Top(sheet, row0)
    ensures Spot(x, row) == Settle(sheet, Flow(sheet, Spot(x0, row0), between))
    ensures y == Top(sheet, row)
  {
    x, row, y := FlowOver(sheet, x0, row0, y0, between);
    if x > 0 && (x + sheet.edge) as real > sheet.maxWidth {
      x := 0;
      y := y + sheet.Line();
      row := row + 1;
    }
  }

  method LayOut(sheet: Sheet, text: Text, cuts: seq<Cut>) returns (layout: Layout)
    requires Ordered(cuts, 0, |text|)
    ensures LayoutOf(sheet, cuts, Greedy(sheet, Gaps(text, cuts, 0), Spot(0, 0)), layout)
  {
    NothingLaidOut(sheet, text, cuts);
    layout := LayInOrder(sheet, text, cuts, Greedy(sheet, Gaps(text, cuts, 0), Spot(0, 0)));
  }

  method LayInOrder(sheet: Sheet, text: Text, cuts: seq<Cut>, ghost all: seq<Spot>) returns (layout: Layout)
    requires Flowing(sheet, text, cuts, 0, 0, Spot(0, 0), [], all) && Built(sheet, cuts, 0, [], [], 0)
    ensures LayoutOf(sheet, cuts, all, layout)
  {
    ghost var spots: seq<Spot> := [];
    var pictures: seq<Placed> := [];
    var x: nat, y: nat, width: nat, from: nat := 0, 0, 0, 0;
    ghost var row: nat := 0;
    for k := 0 to |cuts|
      invariant Flowing(sheet, text, cuts, k, from, Spot(x, row), spots, all)
      invariant Built(sheet, cuts, k, spots, pictures, width)
      invariant y == Top(sheet, row)
    {
      ghost var at := Spot(x, row);
      GapsStep(text, cuts, k, from);
      x, row, y := Advance(sheet, x, row, y, text[from..cuts[k].start]);
      FlowingStep(sheet, text, cuts, k, from, at, spots, all, Spot(x, row));
      BuiltStep(sheet, cuts, k, spots, pictures, width, Spot(x, row), y);
      spots := spots + [Spot(x, row)];
      pictures := pictures + [Placed(cuts[k].name, x, y)];
      width := if x + sheet.edge > width then x + sheet.edge else width;
      x := x + sheet.edge + sheet.Gap();
      from := cuts[k].end;
    }
    AllLaidOut(sheet, text, cuts, from, Spot(x, row), spots, pictures, width, all);
    layout := Layout(pictures, width, if |pictures| > 0 then y + sheet.edge else 0);
  }

  /** A layout with the pictures of these cuts in these spots. */
  predicate LayoutOf(sheet: Sheet, cuts: seq<Cut>, spots: seq<Spot>, layout: Layout) {
    && |spots| == |cuts|
    && layout.pictures == Place(sheet, cuts, spots)
    && layout.width == Widest(sheet, spots)
    && layout.height == if spots == [] then 0 else Top(sheet, spots[|spots| - 1].row) + sheet.edge
  }

  method BigLayout(t: Tables, text: Text, edge: nat, maxWidth: real) returns (layout: Layout)
    ensures LayoutOf(Sheet(edge, maxWidth), Cuts(t, Trim(text), false),
                     BigSpots(t, text, Sheet(edge, maxWidth)), layout)
  {
    var trimmed := Trim(text);
    CutsAreEmoji(t, trimmed, false);
    var cuts := EmojiCuts(t, trimmed, false);
    layout := LayOut(Sheet(edge, maxWidth), trimmed, cuts);
  }

  lemma AllLaidOut(sheet: Sheet, text: Text, cuts: seq<Cut>, from: nat, at: Spot,
                   spots: seq<Spot>, pictures: seq<Placed>, width: nat, all: seq<Spot>)
    requires Flowing(sheet, text, cuts, |cuts|, from, at, spots, all)
    requires Built(sheet, cuts, |cuts|, spots, pictures, width)
    ensures LayoutOf(sheet, cuts, all,
                     Layout(pictures, width, if |pictures| > 0 then Top(sheet, at.row) + sheet.edge else 0))
  {
    assert cuts[..|cuts|] == cuts && cuts[|cuts|..] == [];
    assert spots == all;
  }

  lemma NothingLaidOut(sheet: Sheet, text: Text, cuts: seq<Cut>)
    requires Ordered(cuts, 0, |text|)
    ensures Flowing(sheet, text, cuts, 0, 0, Spot(0, 0), [], Greedy(sheet, Gaps(text, cuts, 0), Spot(0, 0)))
    ensures Built(sheet, cuts, 0, [], [], 0)
  {
    assert cuts[0..] == cuts && cuts[..0] == [];
    assert Place(sheet, [], []) == [];
  }

  lemma GapsStep(text: Text, cuts: seq<Cut>, k: nat, from: nat)
    requires k < |cuts| && Ordered(cuts[k..], from, |text|)
    ensures from <= cuts[k].start < cuts[k].end <= |text|
    ensures Ordered(cuts[k + 1..], cuts[k].end, |text|)
    ensures Gaps(text, cuts[k..], from)
            == [text[from..cuts[k].start]] + Gaps(text, cuts[k + 1..], cuts[k].end)
  {
    OrderedBound(cuts[k..], from, |text|);
    assert cuts[k..][0] == cuts[k] && cuts[k..][1..] == cuts[k + 1..];
  }

  lemma GreedyFirst(sheet: Sheet, gap: Text, rest: seq<Text>, at: Spot)
    ensures var spot := Settle(sheet, Flow(sheet, at, gap));
            Greedy(sheet, [gap] + rest, at) == [spot] + Greedy(sheet, rest, Beyond(sheet, spot))
  {
    assert ([gap] + rest)[1..] == rest;
  }

  lemma FlowingStep(sheet: Sheet, text: Text, cuts: seq<Cut>, k: nat, from: nat, at: Spot,
                    spots: seq<Spot>, all: seq<Spot>, spot: Spot)
    requires Flowing(sheet, text, cuts, k, from, at, spots, all)
    requires k < |cuts| && from <= cuts[k].start <= |text|
    requires spot == Settle(sheet, Flow(sheet, at, text[from..cuts[k].start]))
    ensures Flowing(sheet, text, cuts, k + 1, cuts[k].end,
                    Spot(spot.x + sheet.edge + sheet.Gap(), spot.row), spots + [spot], all)
  {
    GapsStep(text, cuts, k, from);
    var gap, rest := text[from..cuts[k].start], Gaps(text, cuts[k + 1..], cuts[k].end);
    GreedyFirst(sheet, gap, rest, at);
    Assoc(spots, [spot], Greedy(sheet, rest, Beyond(sheet, spot)));
  }

  lemma BuiltStep(sheet: Sheet, cuts: seq<Cut>, k: nat, spots: seq<Spot>, pictures: seq<Placed>, width: nat,
                  spot: Spot, y: nat)
    requires Built(sheet, cuts, k, spots, pictures, width) && k < |cuts| && y == Top(sheet, spot.row)
    ensures Built(sheet, cuts, k + 1, spots + [spot], pictures + [Placed(cuts[k].name, spot.x, y)],
                  if spot.x + sheet.edge > width then spot.x + sheet.edge else width)
  {
    assert (spots + [spot])[..k] == spots;
  }

  // ----- no layout does better -----

  /** Reading order of spots. */
  predicate NoLater(a: Spot, b: Spot) {
    a.row < b.row || (a.row == b.row && a.x <= b.x)
  }

  /** Any layout in this order: line feeds and spaces at least as sent, pictures no closer than
      the sliver, none past the width but at a line's start; lines may break anywhere. */
  predicate Admissible(sheet: Sheet, gaps: seq<Text>, spots: seq<Spot>, at: Spot)
    decreases |gaps|
  {
    |spots| == |gaps|
    && (gaps != [] ==>
          && NoLater(Flow(sheet, at, gaps[0]), spots[0])
          && Fits(sheet, spots[0].x)
          && Admissible(sheet, gaps[1..], spots[1..], Beyond(sheet, spots[0])))
  }

  lemma {:induction false} FlowMonotone(sheet: Sheet, a: Spot, b: Spot, between: Text)
    requires NoLater(a, b)
    ensures NoLater(Flow(sheet, a, between), Flow(sheet, b, between))
    decreases |between|
  {
    if between == [] {
    } else {
      if between[0] == CR {
        FlowMonotone(sheet, a, b, between[1..]);
      } else if between[0] == LF {
        FlowMonotone(sheet, Spot(0, a.row + 1), Spot(0, b.row + 1), between[1..]);
      } else {
        FlowMonotone(sheet, Spot(a.x + sheet.Space(), a.row), Spot(b.x + sheet.Space(), b.row), between[1..]);
      }
    }
  }

  lemma {:induction false} GreedyIsAdmissible(sheet: Sheet, gaps: seq<Text>, at: Spot)
    ensures Admissible(sheet, gaps, Greedy(sheet, gaps, at), at)
    decreases |gaps|
  {
    if gaps == [] {
    } else {
      var spot := Settle(sheet, Flow(sheet, at, gaps[0]));
      GreedyIsAdmissible(sheet, gaps[1..], Beyond(sheet, spot));
      assert Greedy(sheet, gaps, at)[1..] == Greedy(sheet, gaps[1..], Beyond(sheet, spot));
    }
  }

  lemma {:induction false} GreedyIsFirst(sheet: Sheet, gaps: seq<Text>, a: Spot, b: Spot, spots: seq<Spot>)
    requires NoLater(a, b) && Admissible(sheet, gaps, spots, b)
    ensures forall k :: 0 <= k < |gaps| ==> NoLater(Greedy(sheet, gaps, a)[k], spots[k])
    decreases |gaps|
  {
    if gaps == [] {
    } else {
      FlowMonotone(sheet, a, b, gaps[0]);
      var spot := Settle(sheet, Flow(sheet, a, gaps[0]));
      assert NoLater(spot, spots[0]);
      GreedyIsFirst(sheet, gaps[1..], Beyond(sheet, spot), Beyond(sheet, spots[0]), spots[1..]);
      forall k | 0 < k < |gaps|
        ensures NoLater(Greedy(sheet, gaps, a)[k], spots[k])
      {
        assert spots[k] == spots[1..][k - 1];
        assert NoLater(Greedy(sheet, gaps[1..], Beyond(sheet, spot))[k - 1], spots[1..][k - 1]);
      }
    }
  }

  // ----- the same by the numbers -----

  /** Line feeds in a text. */
  function Feeds(s: Text): nat {
    if s == [] then 0 else Feeds(s[..|s| - 1]) + if s[|s| - 1] == 0x0A then 1 else 0
  }

  /** Characters after its last line feed, but for carriage returns. */
  function Blanks(s: Text): nat {
    if s == [] || s[|s| - 1] == 0x0A then 0
    else Blanks(s[..|s| - 1]) + if s[|s| - 1] == 0x0D then 0 else 1
  }

  /** Rounded to a whole number, halves up. */
  predicate IsRounded(px: nat, exact: real) {
    px as real - 0.5 <= exact < px as real + 0.5
  }

  lemma SizesAreRounded(sheet: Sheet)
    ensures IsRounded(sheet.Gap(), 0.08 * sheet.edge as real)
    ensures IsRounded(sheet.Space(), 0.25 * sheet.edge as real)
  {
  }

  lemma FlowFirst(sheet: Sheet, at: Spot, s: Text)
    requires s != []
    ensures Flow(sheet, at, s) == Flow(sheet, Flow(sheet, at, [s[0]]), s[1..])
  {
    assert [s[0]][1..] == [];
  }

  lemma {:induction false} FlowConcat(sheet: Sheet, at: Spot, a: Text, b: Text)
    ensures Flow(sheet, at, a + b) == Flow(sheet, Flow(sheet, at, a), b)
    decreases |a|
  {
    if a == [] {
      ConcatNone(b);
    } else {
      ConcatFirst(a, b);
      FlowFirst(sheet, at, a);
      FlowFirst(sheet, at, a + b);
      FlowConcat(sheet, Flow(sheet, at, [a[0]]), a[1..], b);
    }
  }

  lemma {:induction false} FlowIsCount(sheet: Sheet, at: Spot, s: Text)
    ensures Flow(sheet, at, s)
            == Spot((if Feeds(s) == 0 then at.x else 0) + Blanks(s) * sheet.Space(), at.row + Feeds(s))
  {
    if s == [] {
    } else {
      var init, u := s[..|s| - 1], s[|s| - 1];
      FlowIsCount(sheet, at, init);
      FlowConcat(sheet, at, init, [u]);
      assert s == init + [u] && [u][1..] == [];
      OneMore(Blanks(init), sheet.Space());
    }
  }

  lemma OneMore(n: nat, size: nat)
    ensures (n + 1) * size == n * size + size
  {
  }

  /** A spot for a picture after the text `between`, from `x0` in line `row0` on: line feeds and
      spaces at least as sent, and not past the width but at a line's start. */
  predicate IsAllowed(edge: nat, maxWidth: real, space: nat, x0: nat, row0: nat, between: Text, spot: Spot) {
    && (|| spot.row > row0 + Feeds(between)
        || (spot.row == row0 + Feeds(between)
            && spot.x >= (if Feeds(between) == 0 then x0 else 0) + Blanks(between) * space))
    && (spot.x == 0 || (spot.x + edge) as real <= maxWidth)
  }

  /** The `k`th picture's spot, from where the one before ended, past the sliver. */
  predicate AllowedAt(edge: nat, maxWidth: real, sliver: nat, space: nat, gaps: seq<Text>, spots: seq<Spot>,
                      x0: nat, row0: nat, k: nat)
    requires k < |gaps| == |spots|
  {
    IsAllowed(edge, maxWidth, space,
              if k == 0 then x0 else spots[k - 1].x + edge + sliver,
              if k == 0 then row0 else spots[k - 1].row, gaps[k], spots[k])
  }

  predicate AreAllowed(edge: nat, maxWidth: real, sliver: nat, space: nat, gaps: seq<Text>, spots: seq<Spot>,
                       x0: nat, row0: nat)
  {
    && |spots| == |gaps|
    && forall k :: 0 <= k < |gaps| ==> AllowedAt(edge, maxWidth, sliver, space, gaps, spots, x0, row0, k)
  }

  lemma AllowedShift(edge: nat, maxWidth: real, sliver: nat, space: nat, gaps: seq<Text>, spots: seq<Spot>,
                     x0: nat, row0: nat, k: nat)
    requires 0 < k < |gaps| == |spots|
    ensures AllowedAt(edge, maxWidth, sliver, space, gaps, spots, x0, row0, k)
            <==> AllowedAt(edge, maxWidth, sliver, space, gaps[1..], spots[1..],
                           spots[0].x + edge + sliver, spots[0].row, k - 1)
  {
  }

  lemma AllowedFirst(edge: nat, maxWidth: real, sliver: nat, space: nat, gaps: seq<Text>, spots: seq<Spot>,
                     x0: nat, row0: nat)
    requires |gaps| == |spots| > 0
    ensures AreAllowed(edge, maxWidth, sliver, space, gaps, spots, x0, row0)
            <==> IsAllowed(edge, maxWidth, space, x0, row0, gaps[0], spots[0])
                 && AreAllowed(edge, maxWidth, sliver, space, gaps[1..], spots[1..],
                               spots[0].x + edge + sliver, spots[0].row)
  {
    var x, row := spots[0].x + edge + sliver, spots[0].row;
    if AreAllowed(edge, maxWidth, sliver, space, gaps, spots, x0, row0) {
      assert AllowedAt(edge, maxWidth, sliver, space, gaps, spots, x0, row0, 0);
      forall k | 0 <= k < |gaps[1..]|
        ensures AllowedAt(edge, maxWidth, sliver, space, gaps[1..], spots[1..], x, row, k)
      {
        AllowedShift(edge, maxWidth, sliver, space, gaps, spots, x0, row0, k + 1);
      }
    }
    if IsAllowed(edge, maxWidth, space, x0, row0, gaps[0], spots[0])
       && AreAllowed(edge, maxWidth, sliver, space, gaps[1..], spots[1..], x, row) {
      forall k | 0 <= k < |gaps|
        ensures AllowedAt(edge, maxWidth, sliver, space, gaps, spots, x0, row0, k)
      {
        if k > 0 {
          AllowedShift(edge, maxWidth, sliver, space, gaps, spots, x0, row0, k);
        }
      }
    }
  }

  lemma {:induction false} AllowedIsAdmissible(sheet: Sheet, gaps: seq<Text>, spots: seq<Spot>, at: Spot)
    ensures Admissible(sheet, gaps, spots, at)
            <==> AreAllowed(sheet.edge, sheet.maxWidth, sheet.Gap(), sheet.Space(), gaps, spots, at.x, at.row)
    decreases |gaps|
  {
    if gaps == [] || |spots| != |gaps| {
    } else {
      FlowIsCount(sheet, at, gaps[0]);
      AllowedFirst(sheet.edge, sheet.maxWidth, sheet.Gap(), sheet.Space(), gaps, spots, at.x, at.row);
      AllowedIsAdmissible(sheet, gaps[1..], spots[1..], Beyond(sheet, spots[0]));
    }
  }

  /** The texts between: before the first cut, and from each cut to the next. */
  lemma {:induction false} GapsAt(text: Text, cuts: seq<Cut>, from: nat, k: nat)
    requires Ordered(cuts, from, |text|) && k < |cuts|
    ensures var i := if k == 0 then from else cuts[k - 1].end;
            i <= cuts[k].start <= |text| && Gaps(text, cuts, from)[k] == text[i..cuts[k].start]
    decreases |cuts|
  {
    OrderedBound(cuts, from, |text|);
    if k == 0 {
    } else {
      GapsAt(text, cuts[1..], cuts[0].end, k - 1);
    }
  }

  lemma {:induction false} TopIsTimes(sheet: Sheet, row: nat)
    ensures Top(sheet, row) == row * (sheet.edge + sheet.Gap())
  {
    if row == 0 {
    } else {
      TopIsTimes(sheet, row - 1);
      OneMore(row - 1, sheet.edge + sheet.Gap());
    }
  }

  /** Each picture of the layout is in its spot, its line as far down as so many edges and
      slivers. */
  lemma LayoutInPx(sheet: Sheet, cuts: seq<Cut>, spots: seq<Spot>, layout: Layout, k: nat)
    requires LayoutOf(sheet, cuts, spots, layout) && k < |cuts|
    ensures |layout.pictures| == |cuts| && layout.pictures[k].picture == cuts[k].name
    ensures layout.pictures[k].x == spots[k].x
    ensures layout.pictures[k].y == spots[k].row * (sheet.edge + sheet.Gap())
  {
    TopIsTimes(sheet, spots[k].row);
  }

  /** The layout drawn is one of the layouts allowed, its sliver 0.08 and its space 0.25 of an
      edge, rounded; and in none of them does any picture come sooner in reading order. */
  lemma LayoutIsBest(t: Tables, text: Text, edge: nat, maxWidth: real, sliver: nat, space: nat,
                     gaps: seq<Text>, spots: seq<Spot>)
    requires Ordered(Cuts(t, Trim(text), false), 0, |Trim(text)|)
    requires gaps == Gaps(Trim(text), Cuts(t, Trim(text), false), 0)
    requires IsRounded(sliver, 0.08 * edge as real) && IsRounded(space, 0.25 * edge as real)
    ensures AreAllowed(edge, maxWidth, sliver, space, gaps, BigSpots(t, text, Sheet(edge, maxWidth)), 0, 0)
    ensures AreAllowed(edge, maxWidth, sliver, space, gaps, spots, 0, 0) ==>
              && |spots| == |BigSpots(t, text, Sheet(edge, maxWidth))|
              && forall k :: 0 <= k < |spots| ==>
                   var best := BigSpots(t, text, Sheet(edge, maxWidth))[k];
                   best.row < spots[k].row || (best.row == spots[k].row && best.x <= spots[k].x)
  {
    var sheet := Sheet(edge, maxWidth);
    SizesAreRounded(sheet);
    assert sheet.Gap() == sliver && sheet.Space() == space;
    assert BigSpots(t, text, sheet) == Greedy(sheet, gaps, Spot(0, 0));
    GreedyIsBest(sheet, gaps, spots);
  }

  lemma GreedyIsBest(sheet: Sheet, gaps: seq<Text>, spots: seq<Spot>)
    ensures AreAllowed(sheet.edge, sheet.maxWidth, sheet.Gap(), sheet.Space(), gaps,
                       Greedy(sheet, gaps, Spot(0, 0)), 0, 0)
    ensures AreAllowed(sheet.edge, sheet.maxWidth, sheet.Gap(), sheet.Space(), gaps, spots, 0, 0) ==>
              && |spots| == |Greedy(sheet, gaps, Spot(0, 0))|
              && forall k :: 0 <= k < |spots| ==>
                   var best := Greedy(sheet, gaps, Spot(0, 0))[k];
                   best.row < spots[k].row || (best.row == spots[k].row && best.x <= spots[k].x)
  {
    GreedyIsAdmissible(sheet, gaps, Spot(0, 0));
    AllowedIsAdmissible(sheet, gaps, Greedy(sheet, gaps, Spot(0, 0)), Spot(0, 0));
    AllowedIsAdmissible(sheet, gaps, spots, Spot(0, 0));
    if Admissible(sheet, gaps, spots, Spot(0, 0)) {
      GreedyIsFirst(sheet, gaps, Spot(0, 0), Spot(0, 0), spots);
      forall k | 0 <= k < |spots|
        ensures NoLater(Greedy(sheet, gaps, Spot(0, 0))[k], spots[k])
      {
        assert |gaps| == |spots|;
      }
    }
  }

  lemma {:induction false} TopOrdered(sheet: Sheet, a: nat, b: nat)
    requires a <= b
    ensures Top(sheet, a) <= Top(sheet, b)
  {
    if a == b {
    } else {
      TopOrdered(sheet, a, b - 1);
    }
  }

  // ----- geometry -----

  /** From picture to picture: along a line past the sliver, or down. */
  predicate Follows(sheet: Sheet, a: Spot, b: Spot) {
    a.row < b.row || (a.row == b.row && a.x + sheet.edge + sheet.Gap() <= b.x)
  }

  lemma {:induction false} FlowForward(sheet: Sheet, at: Spot, between: Text)
    ensures NoLater(at, Flow(sheet, at, between))
    decreases |between|
  {
    if between == [] {
    } else {
      if between[0] == CR {
        FlowForward(sheet, at, between[1..]);
      } else if between[0] == LF {
        FlowForward(sheet, Spot(0, at.row + 1), between[1..]);
      } else {
        FlowForward(sheet, Spot(at.x + sheet.Space(), at.row), between[1..]);
      }
    }
  }

  lemma {:induction false} GreedyForward(sheet: Sheet, gaps: seq<Text>, at: Spot)
    ensures forall k :: 0 <= k < |gaps| ==>
              NoLater(at, Greedy(sheet, gaps, at)[k]) && Fits(sheet, Greedy(sheet, gaps, at)[k].x)
    ensures forall j, k :: 0 <= j < k < |gaps| ==>
              Follows(sheet, Greedy(sheet, gaps, at)[j], Greedy(sheet, gaps, at)[k])
    decreases |gaps|
  {
    if gaps == [] {
    } else {
      FlowForward(sheet, at, gaps[0]);
      var spot := Settle(sheet, Flow(sheet, at, gaps[0]));
      GreedyForward(sheet, gaps[1..], Beyond(sheet, spot));
      var rest, all := Greedy(sheet, gaps[1..], Beyond(sheet, spot)), Greedy(sheet, gaps, at);
      assert forall k :: 0 < k < |gaps| ==> all[k] == rest[k - 1];
      forall j, k | 0 <= j < k < |gaps|
        ensures Follows(sheet, all[j], all[k])
      {
        if j > 0 {
          assert Follows(sheet, rest[j - 1], rest[k - 1]);
        }
      }
    }
  }

  lemma {:induction false} WidestBound(sheet: Sheet, spots: seq<Spot>)
    ensures forall k :: 0 <= k < |spots| ==> spots[k].x + sheet.edge <= Widest(sheet, spots)
    ensures spots != [] ==> exists k :: 0 <= k < |spots| && spots[k].x + sheet.edge == Widest(sheet, spots)
  {
    if spots == [] {
    } else {
      var init := spots[..|spots| - 1];
      WidestBound(sheet, init);
      if init != [] {
        var j :| 0 <= j < |init| && init[j].x + sheet.edge == Widest(sheet, init);
        assert spots[j] == init[j];
      }
      forall k | 0 <= k < |spots|
        ensures spots[k].x + sheet.edge <= Widest(sheet, spots)
      {
        if k < |init| {
          assert spots[k] == init[k];
        }
      }
      assert spots[|spots| - 1].x + sheet.edge == Widest(sheet, spots)
             || Widest(sheet, spots) == Widest(sheet, init);
    }
  }

  /** Squares with these top left corners do not overlap. */
  predicate Disjoint(a: Placed, b: Placed, edge: nat) {
    a.x + edge <= b.x || b.x + edge <= a.x || a.y + edge <= b.y || b.y + edge <= a.y
  }

  lemma FollowsIsApart(sheet: Sheet, a: Spot, b: Spot, p: Placed, q: Placed)
    requires Follows(sheet, a, b)
    requires p.x == a.x && p.y == Top(sheet, a.row) && q.x == b.x && q.y == Top(sheet, b.row)
    ensures ReadsOn(p, q, sheet.edge) && Disjoint(p, q, sheet.edge) && p.y <= q.y
  {
    if a.row < b.row {
      TopOrdered(sheet, a.row + 1, b.row);
    }
  }

  /** In reading order and apart: the second on a lower line, or on the same line past the
      first one's right edge. */
  predicate ReadsOn(a: Placed, b: Placed, edge: nat) {
    a.y + edge <= b.y || (a.y == b.y && a.x + edge <= b.x)
  }

  /** Pictures of this edge in reading order, apart from one another, in the least size that
      holds them. */
  ghost predicate FitsExactly(layout: Layout, edge: nat) {
    var p := layout.pictures;
    && (forall j, k :: 0 <= j < k < |p| ==> ReadsOn(p[j], p[k], edge) && Disjoint(p[j], p[k], edge))
    && (forall k :: 0 <= k < |p| ==> p[k].x + edge <= layout.width && p[k].y + edge <= layout.height)
    && (exists k :: 0 <= k < |p| && p[k].x + edge == layout.width)
    && (exists k :: 0 <= k < |p| && p[k].y + edge == layout.height)
  }

  /** Pictures stand in message order and apart from one another, inside the size returned,
      which is the least that holds them; and within the width given, if one picture is. */
  lemma LayoutGeometry(t: Tables, text: Text, sheet: Sheet, layout: Layout)
    requires LayoutOf(sheet, Cuts(t, Trim(text), false), BigSpots(t, text, sheet), layout)
    requires layout.pictures != []
    ensures FitsExactly(layout, sheet.edge)
    ensures sheet.edge as real <= sheet.maxWidth ==> layout.width as real <= sheet.maxWidth
  {
    var trimmed := Trim(text);
    CutsAreEmoji(t, trimmed, false);
    var gaps := Gaps(trimmed, Cuts(t, trimmed, false), 0);
    GreedyGeometry(sheet, gaps, Cuts(t, trimmed, false), layout);
    if sheet.edge as real <= sheet.maxWidth {
      GreedyWidth(sheet, gaps);
    }
  }

  lemma GreedyWidth(sheet: Sheet, gaps: seq<Text>)
    requires gaps != [] && sheet.edge as real <= sheet.maxWidth
    ensures Widest(sheet, Greedy(sheet, gaps, Spot(0, 0))) as real <= sheet.maxWidth
  {
    GreedyForward(sheet, gaps, Spot(0, 0));
    WidestBound(sheet, Greedy(sheet, gaps, Spot(0, 0)));
  }

  lemma GreedyReadsOn(sheet: Sheet, gaps: seq<Text>, cuts: seq<Cut>, layout: Layout, j: nat, k: nat)
    requires LayoutOf(sheet, cuts, Greedy(sheet, gaps, Spot(0, 0)), layout)
    requires j <= k < |layout.pictures|
    ensures var p := layout.pictures;
            p[j].y <= p[k].y && (j < k ==> ReadsOn(p[j], p[k], sheet.edge) && Disjoint(p[j], p[k], sheet.edge))
  {
    var p, spots := layout.pictures, Greedy(sheet, gaps, Spot(0, 0));
    GreedyForward(sheet, gaps, Spot(0, 0));
    if j < k {
      FollowsIsApart(sheet, spots[j], spots[k], p[j], p[k]);
    }
  }

  lemma GreedyGeometry(sheet: Sheet, gaps: seq<Text>, cuts: seq<Cut>, layout: Layout)
    requires LayoutOf(sheet, cuts, Greedy(sheet, gaps, Spot(0, 0)), layout) && layout.pictures != []
    ensures FitsExactly(layout, sheet.edge)
  {
    var p, spots := layout.pictures, Greedy(sheet, gaps, Spot(0, 0));
    WidestBound(sheet, spots);
    forall j, k | 0 <= j <= k < |p|
      ensures j < k ==> ReadsOn(p[j], p[k], sheet.edge) && Disjoint(p[j], p[k], sheet.edge)
      ensures p[j].y <= p[k].y
    {
      GreedyReadsOn(sheet, gaps, cuts, layout, j, k);
    }
    var w :| 0 <= w < |spots| && spots[w].x + sheet.edge == Widest(sheet, spots);
    assert p[w].x + sheet.edge == layout.width;
    assert p[|p| - 1].y + sheet.edge == layout.height;
  }

  lemma OnlyCutsNotEmpty(text: Text, cuts: seq<Cut>)
    requires Ordered(cuts, 0, |text|) && text != [] && OnlyCuts(text, cuts, 0)
    ensures cuts != []
  {
  }

  lemma NotAllWhite(s: Text, n: nat)
    requires n <= |s| && AllWhite(s[0..n]) && (s != [] ==> !IsWhite(s[0]))
    ensures n == 0
  {
    var prefix := s[0..n];
    assert |prefix| == n;
  }

  /** A message that is only emoji has one picture to five, the first in the corner. */
  lemma OnlyEmojiPictures(t: Tables, text: Text, sheet: Sheet)
    requires IsOnlyEmoji(t, text)
    ensures 1 <= |BigSpots(t, text, sheet)| <= LIMIT
    ensures BigSpots(t, text, sheet)[0] == Spot(0, 0)
  {
    var trimmed := Trim(text);
    CutsAreEmoji(t, trimmed, false);
    var cuts := Cuts(t, trimmed, false);
    OnlyCutsNotEmpty(trimmed, cuts);
    OrderedBound(cuts, 0, |trimmed|);
    NotAllWhite(trimmed, cuts[0].start);
    assert trimmed[0..0] == [];
  }
}
