/** What the tables hold and what is drawn, by the numbers as well. */
module TableShape {
  import opened SeqFacts
  import opened Utf16
  import opened EmojiTables
  import opened EmojiScanner
  import opened PointLexer
  import opened EmojiGenerator
  import opened EmojiShape

  /** Less U+FE0F, and less U+1F3FB to U+1F3FF unless tones are kept. */
  function Kept(ps: Points, tones: bool): Points {
    if ps == [] then []
    else if ps[0] == 0xFE0F || (!tones && 0x1F3FB <= ps[0] <= 0x1F3FF) then Kept(ps[1..], tones)
    else [ps[0]] + Kept(ps[1..], tones)
  }

  lemma {:induction false} KeptIsBare(ps: Points)
    ensures WithoutSelectors(ps) == Kept(ps, true)
    ensures WithoutTonePoints(WithoutSelectors(ps)) == Kept(ps, false)
  {
    if ps == [] {
    } else {
      KeptIsBare(ps[1..]);
      ConsRest(ps[0], WithoutSelectors(ps[1..]));
    }
  }

  /** The two keys an emoji is looked up by. */
  lemma KeysByNumber(ps: Points)
    ensures Key(Encode(ps)) == Encode(Kept(ps, true))
    ensures Untoned(Encode(ps)) == Encode(Kept(ps, false))
  {
    KeptIsBare(ps);
    NamesRefine(ps);
  }

  /** The picture of an emoji in a text: none for a sign of the text style table without its
      selector, none for one below the surrogates before U+FE0E, else as spelled, else untoned. */
  lemma PictureByNumber(t: Tables, before: Points, emoji: Points, rest: Points)
    requires emoji != []
    ensures var text, i := Encode(before + emoji + rest), |Encode(before)|;
            && i < i + |Encode(emoji)| <= |text|
            && Drawable(t, text, i, i + |Encode(emoji)|)
               == if Encode(emoji) in t.textStyle && 0xFE0F !in emoji then None
                  else if emoji[0] < 0xD800 && rest != [] && rest[0] == 0xFE0E then None
                  else if Encode(Kept(emoji, true)) in t.byKey then Some(t.byKey[Encode(Kept(emoji, true))])
                  else if Encode(Kept(emoji, false)) in t.byKey then Some(t.byKey[Encode(Kept(emoji, false))])
                  else None
  {
    var ps, k, e := before + emoji + rest, |before|, |before| + |emoji|;
    OffsetOf(before, emoji, rest);
    DrawableRefines(t, ps, k, e);
    assert ps[k..e] == emoji && ps[k] == emoji[0] && (rest != [] ==> ps[e] == rest[0]);
    PointPictureByNumber(t, ps, k, e);
  }

  lemma PointPictureByNumber(t: Tables, ps: Points, k: nat, e: nat)
    requires k < e <= |ps|
    ensures var emoji := ps[k..e];
            PointPicture(t, ps, k, e)
            == if Encode(emoji) in t.textStyle && 0xFE0F !in emoji then None
               else if ps[k] < 0xD800 && e < |ps| && ps[e] == 0xFE0E then None
               else if Encode(Kept(emoji, true)) in t.byKey then Some(t.byKey[Encode(Kept(emoji, true))])
               else if Encode(Kept(emoji, false)) in t.byKey then Some(t.byKey[Encode(Kept(emoji, false))])
               else None
  {
    KeptIsBare(ps[k..e]);
    BareWithoutSelector(ps[k..e]);
  }

  /** The picture looked up by name, "" for none. */
  lemma PictureForByNumber(t: Tables, emoji: Points)
    ensures PictureFor(t, Encode(emoji))
            == if emoji == [] then ""
               else if Encode(Kept(emoji, true)) in t.byKey then t.byKey[Encode(Kept(emoji, true))]
               else if Encode(Kept(emoji, false)) in t.byKey then t.byKey[Encode(Kept(emoji, false))]
               else ""
  {
    EncodeNotEmpty(emoji);
    KeysByNumber(emoji);
  }

  lemma {:induction false} BareWithoutSelector(ps: Points)
    ensures WithoutSelectors(ps) == ps <==> 0xFE0F !in ps
    ensures |WithoutSelectors(ps)| <= |ps|
  {
    if ps == [] {
    } else {
      BareWithoutSelector(ps[1..]);
      ConsRest(ps[0], WithoutSelectors(ps[1..]));
      assert ps == [ps[0]] + ps[1..];
    }
  }

  /** A row's key. */
  function KeyOf(row: Row): Text {
    Encode(Kept(row.emoji, true))
  }

  lemma KeyIsRowKey(row: Row)
    ensures KeyOf(row) == RowKey(row)
    ensures |WithoutSelectors(row.emoji)| == |Kept(row.emoji, true)|
  {
    KeptIsBare(row.emoji);
  }

  /** A start is the first character of some row. */
  lemma StartsByNumber(rows: seq<Row>, t: Tables, u: Unit)
    requires TablesOf(rows, t)
    ensures u in t.bmpStarts <==> exists i :: 0 <= i < |rows| && rows[i].emoji != [] && rows[i].emoji[0] == u
  {
  }

  /** One character of the BMP with U+FE0F after it, a symbol: group 7. */
  predicate IsSign(row: Row) {
    && |row.emoji| >= 2 && row.emoji[0] <= 0xFFFF && row.emoji[1] == 0xFE0F && row.group == 7
    && |Kept(row.emoji, true)| == 1
  }

  lemma SignIsStyled(row: Row)
    ensures IsSign(row) <==> TextStyled(row)
  {
    KeptIsBare(row.emoji);
  }

  /** A key is drawn as text exactly when some sign has it. */
  lemma SignsByNumber(rows: seq<Row>, t: Tables, k: Text)
    requires TablesOf(rows, t)
    ensures k in t.textStyle <==> exists i :: 0 <= i < |rows| && IsSign(rows[i]) && KeyOf(rows[i]) == k
  {
    if k in t.textStyle {
      var i :| 0 <= i < |rows| && TextStyled(rows[i]) && RowKey(rows[i]) == k;
      SignIsStyled(rows[i]);
      KeyIsRowKey(rows[i]);
    }
    if i :| 0 <= i < |rows| && IsSign(rows[i]) && KeyOf(rows[i]) == k {
      SignIsStyled(rows[i]);
      KeyIsRowKey(rows[i]);
    }
  }

  /** The keys are the rows', each with the picture of the last row that has it. */
  lemma RowsByNumber(rows: seq<Row>, t: Tables, k: Text)
    requires TablesOf(rows, t)
    ensures k in t.byKey <==> exists i :: 0 <= i < |rows| && KeyOf(rows[i]) == k
    ensures k in t.byKey ==>
              exists i :: 0 <= i < |rows| && KeyOf(rows[i]) == k && rows[i].picture == t.byKey[k]
                          && forall j :: i < j < |rows| ==> KeyOf(rows[j]) != k
  {
    if k in t.byKey {
      assert NamedByLast(rows, |rows|, k, t.byKey[k]);
      var i :| IsLastNamed(rows, |rows|, k, t.byKey[k], i);
      KeyIsRowKey(rows[i]);
      forall j | i < j < |rows|
        ensures KeyOf(rows[j]) != k
      {
        KeyIsRowKey(rows[j]);
      }
    }
    if i :| 0 <= i < |rows| && KeyOf(rows[i]) == k {
      KeyIsRowKey(rows[i]);
    }
  }

  /** A unit of the class is some key's first, from U+00A9 on or alone, or else its second. */
  lemma MarksByNumber(rows: seq<Row>, t: Tables, u: Unit)
    requires TablesOf(rows, t)
    ensures InClass(t.mayHold, u) <==>
              exists k <- t.byKey :: k != [] && u == if k[0] >= 0xA9 || |k| == 1 then k[0] else k[1]
  {
  }

  lemma StyledByRow(rows: seq<Row>, t: Tables, i: nat)
    requires TablesOf(rows, t) && DistinctKeys(rows) && i < |rows|
    ensures RowKey(rows[i]) in t.textStyle <==> TextStyled(rows[i])
  {
    if RowKey(rows[i]) in t.textStyle {
      var j :| 0 <= j < |rows| && TextStyled(rows[j]) && RowKey(rows[j]) == RowKey(rows[i]);
      assert !(i < j) && !(j < i);
    }
  }

  lemma SignRow(row: Row, c: Scalar)
    requires row.emoji == [c, 0xFE0F] && 0xA9 <= c <= 0xFFFF && c != 0xFE0F
    ensures RowKey(row) == [c] && WithoutSelectors([c]) == [c]
    ensures TextStyled(row) <==> row.group == 7
  {
    assert [c, 0xFE0F][1..] == [0xFE0F] && [0xFE0F][1..] == [];
    assert WithoutSelectors([c, 0xFE0F]) == [c] + WithoutSelectors([0xFE0F]) == [c];
    EncodeOne(c);
  }

  lemma SignIsText(rows: seq<Row>, t: Tables, i: nat, c: Scalar, picture: string, group: nat)
    requires TablesOf(rows, t) && DistinctKeys(rows) && i < |rows| && rows[i] == Row([c, 0xFE0F], picture, group)
    requires 0xA9 <= c <= 0xFFFF && c != 0xFE0F
    ensures RowKey(rows[i]) == [c] && [c] in t.byKey && t.byKey[[c]] == picture
    ensures [c] in t.textStyle <==> group == 7
  {
    SignRow(rows[i], c);
    RowPicture(rows, t, i);
    StyledByRow(rows, t, i);
  }

  lemma EncodeOne(c: Scalar)
    ensures Encode([c]) == EncodePoint(c)
  {
    assert Encode([c]) == EncodePoint(c) + Encode([]);
  }

  /** A sign spelled with U+FE0F in its row is always drawn with it; bare it is drawn if and only
      if its row is not of group 7. */
  lemma GroupDecides(rows: seq<Row>, t: Tables, i: nat, c: Scalar, picture: string, group: nat)
    requires TablesOf(rows, t) && DistinctKeys(rows) && i < |rows| && rows[i] == Row([c, 0xFE0F], picture, group)
    requires 0xA9 <= c <= 0xFFFF && c != 0xFE0F
    ensures Cuts(t, [c], false) == [Cut(0, 1, picture)] <==> group != 7
    ensures Cuts(t, [c, 0xFE0F], false) == [Cut(0, 2, picture)]
  {
    SignIsText(rows, t, i, c, picture, group);
    EncodeOne(c);
    EncodeConcat([c], [0xFE0F]);
    EncodeOne(0xFE0F);
    assert [c, 0xFE0F] == [c] + [0xFE0F];
    RowDrawnAlone(rows, t, i);
    assert rows[i].emoji[1..] == [0xFE0F] && IsTail([0xFE0F]);
    SignAlone(rows, t, i, c, picture, group);
  }

  lemma SignAlone(rows: seq<Row>, t: Tables, i: nat, c: Scalar, picture: string, group: nat)
    requires TablesOf(rows, t) && DistinctKeys(rows) && i < |rows| && rows[i] == Row([c, 0xFE0F], picture, group)
    requires 0xA9 <= c <= 0xFFFF && c != 0xFE0F
    requires RowKey(rows[i]) == [c] && [c] in t.byKey && t.byKey[[c]] == picture
    requires [c] in t.textStyle <==> group == 7
    ensures Cuts(t, [c], false) == [Cut(0, 1, picture)] <==> group != 7
  {
    EncodeOne(c);
    GeneratedScannerIsLexer(rows, t, [c], false);
    OffsetWhole([c]);
    assert c in t.bmpStarts by {
      assert rows[i].emoji[0] == c;
    }
    SignRow(rows[i], c);
    OneSign(t, c, picture);
  }

  /** A character alone that starts an emoji and has a picture. */
  lemma OneSign(t: Tables, c: Scalar, picture: string)
    requires 0xA9 <= c <= 0xFFFF && c in t.bmpStarts && WithoutSelectors([c]) == [c] && Encode([c]) == [c]
    requires [c] in t.byKey && t.byKey[[c]] == picture
    ensures PointCuts(t, [c], false, false, 0) == if [c] in t.textStyle then [] else [Cut(0, 1, picture)]
  {
    var ps := [c];
    assert ps[0..1] == ps && IsEmoji(t, ps);
    assert Longest(t, ps, 0, 1) == 1;
    assert PointPicture(t, ps, 0, 1) == if [c] in t.textStyle then None else Some(picture);
    assert PointCuts(t, ps, false, false, 1) == [];
  }

  /** Where every emoji that starts below U+00A9 has a second character above ASCII, a keycap's
      mark, no ASCII text is ever scanned. */
  lemma AsciiNeverScanned(rows: seq<Row>, t: Tables, text: Text)
    requires TablesOf(rows, t)
    requires forall i :: 0 <= i < |rows| ==> MarkedAbove(KeyOf(rows[i]))
    requires forall u <- text :: u < 0x80
    ensures !MayHold(t, text)
  {
    forall i | 0 <= i < |text|
      ensures !InClass(t.mayHold, text[i])
    {
      assert text[i] in text;
      AsciiNoMark(rows, t, text[i]);
    }
  }

  lemma AsciiNoMark(rows: seq<Row>, t: Tables, u: Unit)
    requires TablesOf(rows, t) && u < 0x80
    requires forall i :: 0 <= i < |rows| ==> MarkedAbove(KeyOf(rows[i]))
    ensures !InClass(t.mayHold, u)
  {
    MarksByNumber(rows, t, u);
    forall k | k in t.byKey
      ensures MarkedAbove(k)
    {
      RowsByNumber(rows, t, k);
    }
  }

  predicate MarkedAbove(k: Text) {
    k == [] || k[0] >= 0xA9 || (|k| > 1 && k[1] >= 0x80)
  }
}
