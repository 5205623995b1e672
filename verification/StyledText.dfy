/** Messages with pictures: `inText`, `roomy` and `drawn` of Emoji.js. */
module StyledText {
  import opened SeqFacts
  import opened Utf16
  import opened EmojiTables
  import opened EmojiScanner
  import opened Escaping
  import opened JsText
  import opened Reader

  /** StyledText in order: markup as written, and `<img>` tags, of which only the picture's
      name is kept. */
  datatype Chunk = Markup(text: Text) | Image(name: string)

  const PRE: Text := [0x3C, 0x70, 0x72, 0x65, 0x3E]            // <pre>
  const PRE_END: Text := [0x3C, 0x2F, 0x70, 0x72, 0x65, 0x3E]  // </pre>

  predicate StartsLine(s: Text) {
    BREAK <= s || PRE <= s || PRE_END <= s
  }

  predicate EndsWith(s: Text, end: Text) {
    |s| >= |end| && s[|s| - |end|..] == end
  }

  predicate EndsLine(s: Text) {
    EndsWith(s, BREAK) || EndsWith(s, PRE) || EndsWith(s, PRE_END)
  }

  function WithoutFirstSpace(s: Text): Text {
    if s != [] && s[0] == SPACE then s[1..] else s
  }

  function WithoutLastSpace(s: Text): Text {
    if s != [] && s[|s| - 1] == SPACE then s[..|s| - 1] else s
  }

  function RoomBefore(piece: Text, afterPicture: bool): Text {
    if afterPicture && !StartsLine(piece) then NBSP + WithoutFirstSpace(piece) else piece
  }

  /** A run as it stands between pictures: each end that faces one gets room, unless the line
      starts or ends there. */
  function Roomy(piece: Text, afterPicture: bool, beforePicture: bool): Text {
    if AllWhite(piece) then piece
    else
      var out := RoomBefore(piece, afterPicture);
      if beforePicture && !EndsLine(out) then WithoutLastSpace(out) + NBSP else out
  }

  /** A run of the text as markup: as it is when styled, else escaped. */
  function Piece(run: Text, styled: bool, lineStart: bool): Text {
    if styled then run else Escaped(run, lineStart)
  }

  // ----- two passes -----

  /** The run from `from` up to a picture at `to`. */
  function RunMarkup(text: Text, styled: bool, from: nat, to: nat): Text
    requires from <= to <= |text|
  {
    Roomy(Piece(text[from..to], styled, from == 0), from > 0, true)
  }

  /** The run after the last picture. */
  function TailMarkup(text: Text, styled: bool, from: nat): Text
    requires from <= |text|
  {
    Roomy(Piece(text[from..], styled, from == 0), true, false)
  }

  /** The second pass: the text from `from` on, cut by cut. */
  function Rendered(text: Text, styled: bool, cuts: seq<Cut>, from: nat): seq<Chunk>
    requires Ordered(cuts, from, |text|)
  {
    OrderedBound(cuts, from, |text|);
    if cuts == [] then [Markup(TailMarkup(text, styled, from))]
    else
      [Markup(RunMarkup(text, styled, from, cuts[0].start)), Image(cuts[0].name)]
      + Rendered(text, styled, cuts[1..], cuts[0].end)
  }

  lemma RenderedAt(text: Text, styled: bool, cuts: seq<Cut>, k: nat, from: nat)
    requires k < |cuts| && Ordered(cuts[k..], from, |text|)
    ensures from <= cuts[k].start < cuts[k].end <= |text|
    ensures Ordered(cuts[k + 1..], cuts[k].end, |text|)
    ensures Rendered(text, styled, cuts[k..], from)
            == [Markup(RunMarkup(text, styled, from, cuts[k].start)), Image(cuts[k].name)]
               + Rendered(text, styled, cuts[k + 1..], cuts[k].end)
  {
    OrderedBound(cuts[k..], from, |text|);
    assert cuts[k..][0] == cuts[k] && cuts[k..][1..] == cuts[k + 1..];
  }

  /** What `inText` makes: both passes, or nothing where the first finds no emoji. */
  function Pictured(t: Tables, text: Text, styled: bool): seq<Chunk> {
    CutsAreEmoji(t, text, styled);
    if Cuts(t, text, styled) == [] then [] else Rendered(text, styled, Cuts(t, text, styled), 0)
  }

  method InText(t: Tables, text: Text, styled: bool) returns (out: seq<Chunk>)
    ensures out == Pictured(t, text, styled)
  {
    CutsAreEmoji(t, text, styled);
    var cuts := EmojiCuts(t, text, styled);
    if cuts == [] {
      return [];
    }
    out := [];
    var from: nat := 0;
    assert cuts[0..] == cuts;
    for k := 0 to |cuts|
      invariant Ordered(cuts[k..], from, |text|)
      invariant out + Rendered(text, styled, cuts[k..], from) == Pictured(t, text, styled)
    {
      RenderedAt(text, styled, cuts, k, from);
      var piece := text[from..cuts[k].start];
      if !styled {
        piece := Escape(piece, from == 0);
      }
      var chunks := [Markup(Roomy(piece, from > 0, true)), Image(cuts[k].name)];
      Assoc(out, chunks, Rendered(text, styled, cuts[k + 1..], cuts[k].end));
      out := out + chunks;
      from := cuts[k].end;
    }
    OrderedBound(cuts[|cuts|..], from, |text|);
    var tail := text[from..];
    if !styled {
      tail := Escape(tail, from == 0);
    }
    out := out + [Markup(Roomy(tail, true, false))];
  }

  /** Pictures go into the marks where there are marks, else into the text; without either the
      result is empty, and the caller draws the text plain. */
  method Drawn(t: Tables, text: Text, marked: Text) returns (out: seq<Chunk>)
    ensures out == DrawnChunks(t, text, marked)
  {
    var styled := |marked| > 0;
    var pictured := InText(t, if styled then marked else text, styled);
    out := if |pictured| > 0 then pictured else if styled then [Markup(marked)] else [];
  }

  function DrawnChunks(t: Tables, text: Text, marked: Text): seq<Chunk> {
    var pictured := Pictured(t, if marked != [] then marked else text, marked != []);
    if pictured != [] then pictured else if marked != [] then [Markup(marked)] else []
  }

  // ----- one pass -----

  /** Scanner and printer in one: text left off at `from`, scanned up to `i`. */
  function OnePass(t: Tables, text: Text, styled: bool, inTag: bool, from: nat, i: nat): seq<Chunk>
    requires from <= i <= |text|
    decreases |text| - i
  {
    if i == |text| then [Markup(TailMarkup(text, styled, from))]
    else if styled && (inTag || text[i] == OPEN) then
      OnePass(t, text, styled, text[i] != CLOSE, from, i + 1)
    else
      var end := TriedEnd(t, text, i);
      if end == i then OnePass(t, text, styled, inTag, from, i + 1)
      else match Drawable(t, text, i, end)
        case Some(name) =>
          [Markup(RunMarkup(text, styled, from, i)), Image(name)]
          + OnePass(t, text, styled, inTag, end, end)
        case None => OnePass(t, text, styled, inTag, from, end)
  }

  lemma RenderedCut(text: Text, styled: bool, c: Cut, rest: seq<Cut>, from: nat)
    requires from <= c.start < c.end && Ordered(rest, c.end, |text|)
    ensures c.end <= |text| && Ordered([c] + rest, from, |text|)
    ensures Rendered(text, styled, [c] + rest, from)
            == [Markup(RunMarkup(text, styled, from, c.start)), Image(c.name)]
               + Rendered(text, styled, rest, c.end)
  {
    OrderedBound(rest, c.end, |text|);
    assert ([c] + rest)[1..] == rest;
  }

  /** Where a picture is drawn, both print the run before it and the picture. */
  lemma OnePassDraws(t: Tables, text: Text, styled: bool, inTag: bool, from: nat, i: nat, c: Cut)
    requires from <= i < |text| && !(styled && (inTag || text[i] == OPEN))
    requires i == c.start < c.end == TriedEnd(t, text, i)
    requires Drawable(t, text, i, c.end) == Some(c.name)
    ensures OnePass(t, text, styled, inTag, from, i)
            == [Markup(RunMarkup(text, styled, from, i)), Image(c.name)]
               + OnePass(t, text, styled, inTag, c.end, c.end)
    ensures Scan(t, text, styled, inTag, i) == [c] + Scan(t, text, styled, inTag, c.end)
  {
  }

  /** Where none is, both go on. */
  lemma OnePassGoesOn(t: Tables, text: Text, styled: bool, inTag: bool, from: nat, i: nat)
      returns (inTag': bool, j: nat)
    requires from <= i < |text|
    requires (styled && (inTag || text[i] == OPEN))
             || TriedEnd(t, text, i) == i || Drawable(t, text, i, TriedEnd(t, text, i)) == None
    ensures i < j <= |text|
    ensures OnePass(t, text, styled, inTag, from, i) == OnePass(t, text, styled, inTag', from, j)
    ensures Scan(t, text, styled, inTag, i) == Scan(t, text, styled, inTag', j)
  {
    if styled && (inTag || text[i] == OPEN) {
      inTag', j := text[i] != CLOSE, i + 1;
    } else {
      var end := TriedEnd(t, text, i);
      inTag', j := inTag, if end == i then i + 1 else end;
      var rest := Scan(t, text, styled, inTag, j);
      assert [] + rest == rest;
    }
  }

  lemma {:induction false} OnePassRenders(t: Tables, text: Text, styled: bool, inTag: bool, from: nat, i: nat)
    requires from <= i <= |text|
    ensures Ordered(Scan(t, text, styled, inTag, i), from, |text|)
    ensures OnePass(t, text, styled, inTag, from, i)
            == Rendered(text, styled, Scan(t, text, styled, inTag, i), from)
    decreases |text| - i
  {
    if i == |text| {
    } else {
      var end := TriedEnd(t, text, i);
      if !(styled && (inTag || text[i] == OPEN)) && i < end && Drawable(t, text, i, end).Some? {
        var c := Cut(i, end, Drawable(t, text, i, end).value);
        OnePassDraws(t, text, styled, inTag, from, i, c);
        OnePassRenders(t, text, styled, inTag, end, end);
        RenderedCut(text, styled, c, Scan(t, text, styled, inTag, end), from);
      } else {
        var inTag', j := OnePassGoesOn(t, text, styled, inTag, from, i);
        OnePassRenders(t, text, styled, inTag', from, j);
      }
    }
  }

  /** Cutting first and printing after gives what printing while scanning does. */
  lemma TwoPassesAreOne(t: Tables, text: Text, styled: bool)
    requires Cuts(t, text, styled) != []
    ensures Pictured(t, text, styled) == OnePass(t, text, styled, false, 0, 0)
  {
    OnePassRenders(t, text, styled, false, 0, 0);
  }

  // ----- what is shown -----

  /** A line starts with this: `<br>`, `<pre>` or `</pre>`. */
  predicate LineFirst(s: Text) {
    || [0x3C, 0x62, 0x72, 0x3E] <= s
    || [0x3C, 0x70, 0x72, 0x65, 0x3E] <= s
    || [0x3C, 0x2F, 0x70, 0x72, 0x65, 0x3E] <= s
  }

  /** A line ends with one of these. */
  predicate LineLast(s: Text) {
    || (|s| >= 4 && s[|s| - 4..] == [0x3C, 0x62, 0x72, 0x3E])
    || (|s| >= 5 && s[|s| - 5..] == [0x3C, 0x70, 0x72, 0x65, 0x3E])
    || (|s| >= 6 && s[|s| - 6..] == [0x3C, 0x2F, 0x70, 0x72, 0x65, 0x3E])
  }

  /** One space more comes first: a picture is before, there is something to keep off it, no line
      starts there, and no space is there already. */
  predicate RoomFirst(piece: Text, after: bool) {
    after && (exists u <- piece :: !IsWhite(u)) && !LineFirst(piece) && piece[0] != 0x20
  }

  /** One space more comes last. */
  predicate RoomLast(piece: Text, before: bool) {
    before && (exists u <- piece :: !IsWhite(u)) && !LineLast(piece) && piece[|piece| - 1] != 0x20
  }

  function Room(room: bool, look: Look): seq<Glyph> {
    if room then [Char(0x20, look)] else []
  }

  /** `shown` is `said` with one space more at each end that has room made, and none elsewhere. */
  ghost predicate Roomed(shown: seq<Glyph>, said: seq<Glyph>, first: bool, last: bool) {
    exists a, b :: shown == Room(first, a) + said + Room(last, b)
  }

  lemma ReadRoomBefore(st: State, piece: Text, after: bool)
    requires st.mode.InText?
    ensures End(st, RoomBefore(piece, after)) == End(st, piece)
    ensures Shown(st, RoomBefore(piece, after))
            == Room(after && !StartsLine(piece) && (piece == [] || piece[0] != SPACE), st.look) + Shown(st, piece)
  {
    var rest := WithoutFirstSpace(piece);
    if after && !StartsLine(piece) {
      ReadNbsp(st.look);
      ReadConcat(st, NBSP, rest);
      if rest != piece {
        ReadOne(st, SPACE);
        ReadConcat(st, [SPACE], rest);
        assert piece == [SPACE] + rest;
      }
    }
  }

  lemma ReadNbspAfter(st: State, rest: Text)
    requires End(st, rest).mode.InText?
    ensures End(st, rest + NBSP) == End(st, rest)
    ensures Shown(st, rest + NBSP) == Shown(st, rest) + [Char(SPACE, End(st, rest).look)]
  {
    ReadConcat(st, rest, NBSP);
    ReadNbsp(End(st, rest).look);
  }

  /** A run that ends in text keeps its last space, literal or not, and gets one if it has none. */
  lemma ReadRoomAfter(st: State, piece: Text)
    requires End(st, piece).mode.InText?
    ensures End(st, WithoutLastSpace(piece) + NBSP) == End(st, piece)
    ensures Shown(st, WithoutLastSpace(piece) + NBSP)
            == Shown(st, piece) + Room(piece == [] || piece[|piece| - 1] != SPACE, End(st, piece).look)
  {
    var rest := WithoutLastSpace(piece);
    if rest != piece {
      assert piece == rest + [SPACE];
      ReadConcat(st, rest, [SPACE]);
      ReadOne(End(st, rest), SPACE);
    }
    ReadNbspAfter(st, rest);
  }

  lemma LineTagsSpelled(piece: Text)
    ensures StartsLine(piece) <==> LineFirst(piece)
    ensures EndsLine(piece) <==> LineLast(piece)
    ensures !AllWhite(piece) <==> exists u <- piece :: !IsWhite(u)
  {
  }

  /** What making room leaves last is what was last. */
  lemma RoomBeforeLast(piece: Text, after: bool)
    requires !AllWhite(piece)
    ensures var out := RoomBefore(piece, after);
            out != [] && piece != [] && (out[|out| - 1] == SPACE <==> piece[|piece| - 1] == SPACE)
  {
    if |piece| == 1 {
      assert piece[0] in piece;
      assert forall u <- piece :: u == piece[0];
    }
  }

  /** Making room shows exactly the room: a space at an end that faces a picture, unless the run
      is white space, a line starts or ends there, or a space is there. */
  lemma RoomyShows(st: State, piece: Text, after: bool, before: bool)
    requires st.mode.InText? && End(st, piece).mode.InText?
    ensures End(st, Roomy(piece, after, before)) == End(st, piece)
    ensures Shown(st, Roomy(piece, after, before))
            == Room(RoomFirst(piece, after), st.look) + Shown(st, piece)
               + Room(RoomLast(piece, before), End(st, piece).look)
  {
    LineTagsSpelled(piece);
    if !AllWhite(piece) {
      var out := RoomBefore(piece, after);
      ReadRoomBefore(st, piece, after);
      RoomBeforeEnds(piece, after);
      RoomBeforeLast(piece, after);
      if before && !EndsLine(out) {
        ReadRoomAfter(st, out);
      }
    }
  }

  /** What has no tag in it ends no line. */
  lemma EndsWithAfter(a: Text, rest: Text, end: Text)
    requires LESS !in a && end != [] && end[0] == LESS
    ensures EndsWith(a + rest, end) <==> EndsWith(rest, end)
  {
    var s := a + rest;
    if EndsWith(s, end) {
      assert s[|s| - |end|] == end[0];
      assert forall i :: 0 <= i < |a| ==> a[i] in a && s[i] == a[i];
      assert s[|s| - |end|..] == rest[|rest| - |end|..];
    }
    if EndsWith(rest, end) {
      assert s[|s| - |end|..] == rest[|rest| - |end|..];
    }
  }

  lemma EndsLineAfter(a: Text, rest: Text)
    requires LESS !in a
    ensures EndsLine(a + rest) <==> EndsLine(rest)
  {
    EndsWithAfter(a, rest, BREAK);
    EndsWithAfter(a, rest, PRE);
    EndsWithAfter(a, rest, PRE_END);
  }

  lemma RoomBeforeEnds(piece: Text, after: bool)
    ensures EndsLine(RoomBefore(piece, after)) <==> EndsLine(piece)
  {
    var rest := WithoutFirstSpace(piece);
    EndsLineAfter(NBSP, rest);
    EndsLineAfter([SPACE], rest);
    assert piece == rest || piece == [SPACE] + rest;
  }

  lemma NbspStays(rest: Text)
    ensures NBSP <= WithoutLastSpace(NBSP + rest)
    ensures EndsWith(rest + NBSP, NBSP)
  {
    var s := NBSP + rest;
    assert |s| == |NBSP| ==> s[|s| - 1] == SEMICOLON;
  }

  /** Where room is made: a no-break space toward each picture, unless the run is white space
      or a line starts or ends there; else the run stays as it is. */
  lemma RoomyWhere(piece: Text, after: bool, before: bool)
    ensures var out := Roomy(piece, after, before);
            var first := after && !StartsLine(piece);
            var last := before && !EndsLine(piece);
            && (!AllWhite(piece) && first ==> NBSP <= out)
            && (!AllWhite(piece) && last ==> EndsWith(out, NBSP))
            && (AllWhite(piece) || (!first && !last) ==> out == piece)
  {
    RoomBeforeEnds(piece, after);
    NbspStays(WithoutFirstSpace(piece));
    NbspStays(WithoutLastSpace(RoomBefore(piece, after)));
  }

  /** What a run of the text says: read when styled, else taken as it is. */
  function Said(st: State, run: Text, styled: bool): seq<Glyph> {
    if styled then Shown(st, run) else Chars(Clean(run), st.look)
  }

  function SaidEnd(st: State, run: Text, styled: bool): State {
    if styled then End(st, run) else st
  }

  lemma SaidConcat(st: State, a: Text, b: Text, styled: bool)
    ensures Said(st, a + b, styled) == Said(st, a, styled) + Said(SaidEnd(st, a, styled), b, styled)
    ensures SaidEnd(st, a + b, styled) == SaidEnd(SaidEnd(st, a, styled), b, styled)
  {
    if styled {
      ReadConcat(st, a, b);
    } else {
      CleanConcat(a, b);
      CharsConcat(Clean(a), Clean(b), st.look);
    }
  }

  lemma CharsConcat(a: Text, b: Text, look: Look)
    ensures Chars(a + b, look) == Chars(a, look) + Chars(b, look)
  {
  }

  lemma PieceSays(st: State, run: Text, styled: bool, lineStart: bool)
    requires st.mode.InText?
    ensures Shown(st, Piece(run, styled, lineStart)) == Said(st, run, styled)
    ensures End(st, Piece(run, styled, lineStart)) == SaidEnd(st, run, styled)
  {
    EscapedReadsBack(run, lineStart, st.look);
  }

  function ShownAll(st: State, chunks: seq<Chunk>): seq<Glyph>
    decreases |chunks|
  {
    if chunks == [] then []
    else match chunks[0]
      case Markup(text) => Shown(st, text) + ShownAll(End(st, text), chunks[1..])
      case Image(name) => [Glyph.Picture(name)] + ShownAll(st, chunks[1..])
  }

  function Pictures(cuts: seq<Cut>): seq<seq<Glyph>> {
    if cuts == [] then [] else [[Glyph.Picture(cuts[0].name)]] + Pictures(cuts[1..])
  }

  lemma {:induction false} PicturesCount(cuts: seq<Cut>)
    ensures |Pictures(cuts)| == |cuts|
  {
    if cuts == [] {
    } else {
      PicturesCount(cuts[1..]);
    }
  }

  /** A cut's emoji as it is to be shown: as it is when styled, else less carriage returns and
      with tabs as spaces. */
  function Face(text: Text, c: Cut, styled: bool): Text
    requires c.start <= c.end <= |text|
  {
    if styled then text[c.start..c.end] else Clean(text[c.start..c.end])
  }

  /** The emoji of the cuts, as characters. */
  ghost predicate AreEmoji(emoji: seq<seq<Glyph>>, text: Text, cuts: seq<Cut>, styled: bool) {
    && |emoji| == |cuts|
    && forall k :: 0 <= k < |cuts| ==>
         cuts[k].start <= cuts[k].end <= |text|
         && exists look :: emoji[k] == Chars(Face(text, cuts[k], styled), look)
  }

  /** Every cut stands in text, outside tags and entities, and reads as itself. */
  predicate Settled(st: State, text: Text, styled: bool, cuts: seq<Cut>, from: nat)
    requires Ordered(cuts, from, |text|)
    decreases |cuts|
  {
    OrderedBound(cuts, from, |text|);
    if cuts == [] then SaidEnd(st, text[from..], styled).mode.InText?
    else
      var c := cuts[0];
      OrderedBound(cuts[1..], c.end, |text|);
      var at := SaidEnd(st, text[from..c.start], styled);
      && at.mode.InText?
      && Said(at, text[c.start..c.end], styled) == Chars(Face(text, c, styled), at.look)
      && SaidEnd(at, text[c.start..c.end], styled) == at
      && Settled(at, text, styled, cuts[1..], c.end)
  }

  /** Where the `k`th run starts: past the cut before it. */
  function RunFrom(cuts: seq<Cut>, from: nat, k: nat): nat
    requires k <= |cuts|
  {
    if k == 0 then from else cuts[k - 1].end
  }

  /** Where it ends: at the next cut. */
  function RunTo(text: Text, cuts: seq<Cut>, k: nat): nat
    requires k <= |cuts|
  {
    if k == |cuts| then |text| else cuts[k].start
  }

  /** The run from `i` to `j` as it is shown, against what it says. Its markup is the text itself
      when styled, else the text escaped; past the start of the text a picture is before it. */
  ghost predicate RunRoomed(text: Text, styled: bool, i: nat, j: nat, before: bool,
                            run: seq<Glyph>, said: seq<Glyph>)
  {
    && i <= j <= |text|
    && (!styled ==> exists look :: said == Chars(Clean(text[i..j]), look))
    && var piece := if styled then text[i..j] else Escaped(text[i..j], i == 0);
       Roomed(run, said, RoomFirst(piece, i > 0), RoomLast(piece, before))
  }

  /** How the pictured text reads, against how the text reads: `runs` and `said` pair up, with
      pictures between the ones and their emoji between the others. */
  ghost predicate Pairs(shown: seq<Glyph>, whole: seq<Glyph>, text: Text, cuts: seq<Cut>, styled: bool, from: nat,
                        runs: seq<seq<Glyph>>, said: seq<seq<Glyph>>, emoji: seq<seq<Glyph>>)
  {
    && |runs| == |said| == |cuts| + 1 && |Pictures(cuts)| == |cuts|
    && AreEmoji(emoji, text, cuts, styled)
    && shown == Woven(runs, Pictures(cuts), 0)
    && whole == Woven(said, emoji, 0)
    && forall k :: 0 <= k <= |cuts| ==> RunRoomedAt(text, styled, cuts, from, runs, said, k)
  }

  lemma PairsStep(shown: seq<Glyph>, whole: seq<Glyph>, text: Text, cuts: seq<Cut>, styled: bool,
                  runs: seq<seq<Glyph>>, said: seq<seq<Glyph>>, emoji: seq<seq<Glyph>>,
                  c: Cut, from: nat, run: seq<Glyph>, says: seq<Glyph>, look: Look)
    requires Pairs(shown, whole, text, cuts, styled, c.end, runs, said, emoji)
    requires c.start <= c.end <= |text|
    requires RunRoomed(text, styled, from, c.start, true, run, says)
    ensures var face := Chars(Face(text, c, styled), look);
            Pairs(run + [Glyph.Picture(c.name)] + shown, says + face + whole, text, [c] + cuts, styled, from,
                  [run] + runs, [says] + said, [face] + emoji)
  {
    var face := Chars(Face(text, c, styled), look);
    PicturesCount([c] + cuts);
    ConsRest(c, cuts);
    WovenFirst(run, runs, [Glyph.Picture(c.name)], Pictures(cuts));
    WovenFirst(says, said, face, emoji);
    AreEmojiFirst(text, cuts, styled, emoji, c, look);
    RoomedFirst(text, cuts, styled, runs, said, c, from, run, says);
  }

  lemma AreEmojiFirst(text: Text, cuts: seq<Cut>, styled: bool, emoji: seq<seq<Glyph>>, c: Cut, look: Look)
    requires AreEmoji(emoji, text, cuts, styled) && c.start <= c.end <= |text|
    ensures AreEmoji([Chars(Face(text, c, styled), look)] + emoji, text, [c] + cuts, styled)
  {
    var face := Chars(Face(text, c, styled), look);
    var cuts', emoji' := [c] + cuts, [face] + emoji;
    forall k | 0 <= k < |cuts'|
      ensures cuts'[k].start <= cuts'[k].end <= |text|
              && exists b :: emoji'[k] == Chars(Face(text, cuts'[k], styled), b)
    {
      if k > 0 {
        assert cuts'[k] == cuts[k - 1] && emoji'[k] == emoji[k - 1];
      } else {
        assert emoji'[k] == Chars(Face(text, cuts'[k], styled), look);
      }
    }
  }

  /** The `k`th run of a text with these cuts. */
  ghost predicate RunRoomedAt(text: Text, styled: bool, cuts: seq<Cut>, from: nat,
                              runs: seq<seq<Glyph>>, said: seq<seq<Glyph>>, k: nat)
    requires k <= |cuts| && k < |runs| == |said|
  {
    RunRoomed(text, styled, RunFrom(cuts, from, k), RunTo(text, cuts, k), k < |cuts|, runs[k], said[k])
  }

  lemma RoomedShift(text: Text, cuts: seq<Cut>, styled: bool, runs: seq<seq<Glyph>>, said: seq<seq<Glyph>>,
                    c: Cut, from: nat, run: seq<Glyph>, says: seq<Glyph>, k: nat)
    requires |runs| == |said| == |cuts| + 1 && k <= |cuts|
    requires RunRoomedAt(text, styled, cuts, c.end, runs, said, k)
    ensures RunRoomedAt(text, styled, [c] + cuts, from, [run] + runs, [says] + said, k + 1)
  {
    assert ([run] + runs)[k + 1] == runs[k] && ([says] + said)[k + 1] == said[k];
    assert RunFrom([c] + cuts, from, k + 1) == RunFrom(cuts, c.end, k);
    assert RunTo(text, [c] + cuts, k + 1) == RunTo(text, cuts, k);
  }

  lemma RoomedFirst(text: Text, cuts: seq<Cut>, styled: bool, runs: seq<seq<Glyph>>, said: seq<seq<Glyph>>,
                    c: Cut, from: nat, run: seq<Glyph>, says: seq<Glyph>)
    requires |runs| == |said| == |cuts| + 1 && RunRoomed(text, styled, from, c.start, true, run, says)
    requires forall k :: 0 <= k <= |cuts| ==> RunRoomedAt(text, styled, cuts, c.end, runs, said, k)
    ensures forall k :: 0 <= k <= |cuts| + 1 ==>
              RunRoomedAt(text, styled, [c] + cuts, from, [run] + runs, [says] + said, k)
  {
    forall k | 0 <= k <= |cuts| + 1
      ensures RunRoomedAt(text, styled, [c] + cuts, from, [run] + runs, [says] + said, k)
    {
      if k > 0 {
        RoomedShift(text, cuts, styled, runs, said, c, from, run, says, k - 1);
      }
    }
  }

  lemma ShownChunks(st: State, m: Text, name: string, rest: seq<Chunk>)
    ensures ShownAll(st, [Markup(m), Image(name)] + rest)
            == Shown(st, m) + [Glyph.Picture(name)] + ShownAll(End(st, m), rest)
  {
    ConsRest(Image(name), rest);
    ConsRest(Markup(m), [Image(name)] + rest);
    assert [Markup(m), Image(name)] + rest == [Markup(m)] + ([Image(name)] + rest);
    Assoc(Shown(st, m), [Glyph.Picture(name)], ShownAll(End(st, m), rest));
  }

  /** What the text says splits at a cut that stands in text. */
  lemma SaidAtCut(st: State, text: Text, styled: bool, from: nat, c: Cut)
    requires from <= c.start <= c.end <= |text|
    requires var at := SaidEnd(st, text[from..c.start], styled);
             Said(at, text[c.start..c.end], styled) == Chars(Face(text, c, styled), at.look)
             && SaidEnd(at, text[c.start..c.end], styled) == at
    ensures var at := SaidEnd(st, text[from..c.start], styled);
            Said(st, text[from..], styled)
            == Said(st, text[from..c.start], styled) + Chars(Face(text, c, styled), at.look)
               + Said(at, text[c.end..], styled)
  {
    SaidThree(st, text[from..c.start], text[c.start..c.end], text[c.end..], styled);
    SplitThree(text, from, c.start, c.end);
  }

  lemma SaidThree(st: State, run: Text, face: Text, rest: Text, styled: bool)
    requires SaidEnd(SaidEnd(st, run, styled), face, styled) == SaidEnd(st, run, styled)
    ensures Said(st, run + (face + rest), styled)
            == Said(st, run, styled) + Said(SaidEnd(st, run, styled), face, styled)
               + Said(SaidEnd(st, run, styled), rest, styled)
  {
    var at := SaidEnd(st, run, styled);
    SaidConcat(st, run, face + rest, styled);
    SaidConcat(at, face, rest, styled);
    Assoc(Said(st, run, styled), Said(at, face, styled), Said(at, rest, styled));
  }

  lemma RunShows(st: State, text: Text, styled: bool, from: nat, to: nat)
    requires from <= to <= |text| && st.mode.InText?
    requires SaidEnd(st, text[from..to], styled).mode.InText?
    ensures End(st, RunMarkup(text, styled, from, to)) == SaidEnd(st, text[from..to], styled)
    ensures RunRoomed(text, styled, from, to, true,
                      Shown(st, RunMarkup(text, styled, from, to)), Said(st, text[from..to], styled))
  {
    PieceSays(st, text[from..to], styled, from == 0);
    RoomyShows(st, Piece(text[from..to], styled, from == 0), from > 0, true);
  }

  lemma TailShows(st: State, text: Text, styled: bool, from: nat)
    requires 0 < from <= |text| && st.mode.InText?
    requires SaidEnd(st, text[from..], styled).mode.InText?
    ensures RunRoomed(text, styled, from, |text|, false,
                      Shown(st, TailMarkup(text, styled, from)), Said(st, text[from..], styled))
  {
    assert text[from..] == text[from..|text|];
    PieceSays(st, text[from..], styled, from == 0);
    RoomyShows(st, Piece(text[from..], styled, from == 0), true, false);
  }

  lemma {:induction false} RenderedShows(st: State, text: Text, styled: bool, cuts: seq<Cut>, from: nat)
      returns (runs: seq<seq<Glyph>>, said: seq<seq<Glyph>>, emoji: seq<seq<Glyph>>)
    requires Ordered(cuts, from, |text|) && st.mode.InText?
    requires Settled(st, text, styled, cuts, from)
    requires cuts == [] ==> from > 0
    ensures from <= |text|
    ensures Pairs(ShownAll(st, Rendered(text, styled, cuts, from)), Said(st, text[from..], styled),
                  text, cuts, styled, from, runs, said, emoji)
    decreases |cuts|
  {
    OrderedBound(cuts, from, |text|);
    if cuts == [] {
      runs, said, emoji := RenderedTail(st, text, styled, from);
    } else {
      var c := cuts[0];
      OrderedBound(cuts[1..], c.end, |text|);
      var at := SaidEnd(st, text[from..c.start], styled);
      runs, said, emoji := RenderedShows(at, text, styled, cuts[1..], c.end);
      runs, said, emoji := RenderedStep(st, at, text, styled, c, cuts[1..], from, runs, said, emoji);
      assert [c] + cuts[1..] == cuts;
    }
  }

  lemma RenderedTail(st: State, text: Text, styled: bool, from: nat)
      returns (runs: seq<seq<Glyph>>, said: seq<seq<Glyph>>, emoji: seq<seq<Glyph>>)
    requires 0 < from <= |text| && st.mode.InText? && SaidEnd(st, text[from..], styled).mode.InText?
    ensures Pairs(ShownAll(st, [Markup(TailMarkup(text, styled, from))]), Said(st, text[from..], styled),
                  text, [], styled, from, runs, said, emoji)
  {
    var tail := TailMarkup(text, styled, from);
    TailShows(st, text, styled, from);
    runs, said, emoji := [Shown(st, tail)], [Said(st, text[from..], styled)], [];
    assert ShownAll(st, [Markup(tail)]) == Shown(st, tail) + [];
  }

  lemma RenderedStep(st: State, at: State, text: Text, styled: bool, c: Cut, cuts: seq<Cut>, from: nat,
                     runs: seq<seq<Glyph>>, said: seq<seq<Glyph>>, emoji: seq<seq<Glyph>>)
      returns (runs': seq<seq<Glyph>>, said': seq<seq<Glyph>>, emoji': seq<seq<Glyph>>)
    requires from <= c.start <= c.end <= |text| && st.mode.InText? && at.mode.InText?
    requires at == SaidEnd(st, text[from..c.start], styled)
    requires Said(at, text[c.start..c.end], styled) == Chars(Face(text, c, styled), at.look)
    requires SaidEnd(at, text[c.start..c.end], styled) == at
    requires Ordered(cuts, c.end, |text|)
    requires Pairs(ShownAll(at, Rendered(text, styled, cuts, c.end)), Said(at, text[c.end..], styled),
                   text, cuts, styled, c.end, runs, said, emoji)
    ensures Pairs(ShownAll(st, [Markup(RunMarkup(text, styled, from, c.start)), Image(c.name)]
                               + Rendered(text, styled, cuts, c.end)),
                  Said(st, text[from..], styled), text, [c] + cuts, styled, from, runs', said', emoji')
  {
    var run := RunMarkup(text, styled, from, c.start);
    var says := Said(st, text[from..c.start], styled);
    RunShows(st, text, styled, from, c.start);
    SaidAtCut(st, text, styled, from, c);
    ShownChunks(st, run, c.name, Rendered(text, styled, cuts, c.end));
    PairsStep(ShownAll(at, Rendered(text, styled, cuts, c.end)), Said(at, text[c.end..], styled),
              text, cuts, styled, runs, said, emoji, c, from, Shown(st, run), says, at.look);
    runs', said', emoji' := [Shown(st, run)] + runs, [says] + said,
                            [Chars(Face(text, c, styled), at.look)] + emoji;
  }
}
