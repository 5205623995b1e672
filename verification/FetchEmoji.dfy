/** The table generator: `pictures_js` of scripts/fetch-emoji.py. */
module EmojiGenerator {
  import opened Utf16
  import opened EmojiTables
  import opened EmojiScanner
  import opened PointLexer
  import CharClass

  /** A row of the emoji list: the emoji as Unicode spells it, its picture, its group. */
  datatype Row = Row(emoji: Points, picture: string, group: nat)

  /** The symbols' place among the picker's groups. */
  const SYMBOLS: nat := 7

  datatype Outcome = Written(tables: Tables) | IndexError

  function RowKey(row: Row): Text {
    Encode(WithoutSelectors(row.emoji))
  }

  /** The unit of a key every text holding it has: the first, but a keycap's mark. */
  function Mark(key: Text): Unit
    requires key != []
  {
    if key[0] >= 0xA9 || |key| == 1 then key[0] else key[1]
  }

  /** One BMP character that is text without the selector spelled after it. */
  predicate TextStyled(row: Row) {
    && row.emoji != [] && row.emoji[0] <= 0xFFFF
    && |WithoutSelectors(row.emoji)| == 1
    && |row.emoji| > 1 && row.emoji[1] == SELECTOR
    && row.group == SYMBOLS
  }

  // What each table holds once the first `n` rows are in. Of rows with one key the last counts.

  /** Of the first `n` rows, `i` is the last with the key, and has this picture. */
  ghost predicate IsLastNamed(rows: seq<Row>, n: nat, k: Text, name: string, i: int)
    requires n <= |rows|
  {
    && 0 <= i < n && RowKey(rows[i]) == k && rows[i].picture == name
    && forall j :: i < j < n ==> RowKey(rows[j]) != k
  }

  ghost predicate NamedByLast(rows: seq<Row>, n: nat, k: Text, name: string)
    requires n <= |rows|
  {
    exists i :: IsLastNamed(rows, n, k, name, i)
  }

  ghost predicate KeysOf(rows: seq<Row>, n: nat, byKey: map<Text, string>)
    requires n <= |rows|
  {
    && (forall i :: 0 <= i < n ==> RowKey(rows[i]) in byKey)
    && (forall k <- byKey :: NamedByLast(rows, n, k, byKey[k]))
  }

  ghost predicate StartsOf(rows: seq<Row>, n: nat, starts: set<Unit>)
    requires n <= |rows|
  {
    && (forall i :: 0 <= i < n && rows[i].emoji != [] && rows[i].emoji[0] <= 0xFFFF ==>
          rows[i].emoji[0] in starts)
    && forall u <- starts :: exists i :: 0 <= i < n && rows[i].emoji != [] && rows[i].emoji[0] == u
  }

  ghost predicate StylesOf(rows: seq<Row>, n: nat, styles: set<Text>)
    requires n <= |rows|
  {
    && (forall i :: 0 <= i < n && TextStyled(rows[i]) ==> RowKey(rows[i]) in styles)
    && forall k <- styles :: exists i :: 0 <= i < n && TextStyled(rows[i]) && RowKey(rows[i]) == k
  }

  /** Units of the class are the keys' marks and no others. */
  ghost predicate MarksOf(byKey: map<Text, string>, mayHold: seq<Range>) {
    && (forall k <- byKey :: k != [] && InClass(mayHold, Mark(k)))
    && forall u: Unit :: InClass(mayHold, u) ==> exists k <- byKey :: k != [] && Mark(k) == u
  }

  ghost predicate TablesOf(rows: seq<Row>, t: Tables) {
    && KeysOf(rows, |rows|, t.byKey)
    && StartsOf(rows, |rows|, t.bmpStarts)
    && StylesOf(rows, |rows|, t.textStyle)
    && MarksOf(t.byKey, t.mayHold)
  }

  lemma NamedNow(rows: seq<Row>, n: nat)
    requires n < |rows|
    ensures NamedByLast(rows, n + 1, RowKey(rows[n]), rows[n].picture)
  {
    assert IsLastNamed(rows, n + 1, RowKey(rows[n]), rows[n].picture, n);
  }

  lemma NamedStill(rows: seq<Row>, n: nat, k: Text, name: string)
    requires n < |rows| && NamedByLast(rows, n, k, name) && RowKey(rows[n]) != k
    ensures NamedByLast(rows, n + 1, k, name)
  {
    var i :| IsLastNamed(rows, n, k, name, i);
    assert IsLastNamed(rows, n + 1, k, name, i);
  }

  lemma KeysOfStep(rows: seq<Row>, n: nat, byKey: map<Text, string>)
    requires n < |rows| && KeysOf(rows, n, byKey)
    ensures KeysOf(rows, n + 1, byKey[RowKey(rows[n]) := rows[n].picture])
  {
    var key := RowKey(rows[n]);
    var after := byKey[key := rows[n].picture];
    forall k | k in after
      ensures NamedByLast(rows, n + 1, k, after[k])
    {
      if k == key {
        NamedNow(rows, n);
      } else {
        NamedStill(rows, n, k, byKey[k]);
      }
    }
  }

  lemma StartsOfStep(rows: seq<Row>, n: nat, starts: set<Unit>)
    requires n < |rows| && StartsOf(rows, n, starts) && rows[n].emoji != []
    ensures StartsOf(rows, n + 1,
                     if rows[n].emoji[0] <= 0xFFFF then starts + {rows[n].emoji[0]} else starts)
  {
  }

  lemma StylesOfStep(rows: seq<Row>, n: nat, styles: set<Text>)
    requires n < |rows| && StylesOf(rows, n, styles)
    ensures StylesOf(rows, n + 1, if TextStyled(rows[n]) then styles + {RowKey(rows[n])} else styles)
  {
  }

  /** The class of units worth scanning for. */
  method MayHoldClass(byKey: map<Text, string>) returns (mayHold: seq<Range>)
    requires [] !in byKey
    ensures MarksOf(byKey, mayHold) && CharClass.Canonical(mayHold)
  {
    var marks: set<Unit> := {};
    var keys := byKey.Keys;
    while keys != {}
      invariant keys <= byKey.Keys
      invariant forall k <- byKey.Keys - keys :: Mark(k) in marks
      invariant forall u <- marks :: exists k <- byKey :: Mark(k) == u
    {
      var bare :| bare in keys;
      marks := marks + {Mark(bare)};
      keys := keys - {bare};
    }
    var text;
    mayHold, text := CharClass.CharClass(marks);
  }

  /** One row's entries; Python fails on an empty emoji, as it has no first character. */
  method AddRow(rows: seq<Row>, n: nat, byKey: map<Text, string>, bmpStarts: set<Unit>, textStyle: set<Text>)
      returns (ok: bool, keys: map<Text, string>, starts: set<Unit>, styles: set<Text>)
    requires n < |rows|
    requires KeysOf(rows, n, byKey) && StartsOf(rows, n, bmpStarts) && StylesOf(rows, n, textStyle)
    ensures ok <==> rows[n].emoji != []
    ensures ok ==> KeysOf(rows, n + 1, keys) && StartsOf(rows, n + 1, starts)
                   && StylesOf(rows, n + 1, styles)
  {
    var emoji := rows[n].emoji;
    var bare := WithoutSelectors(emoji);
    keys, starts, styles := byKey[Encode(bare) := rows[n].picture], bmpStarts, textStyle;
    if emoji == [] {
      return false, keys, starts, styles;
    }
    if emoji[0] <= 0xFFFF {
      starts := starts + {emoji[0]};
      if |bare| == 1 && |emoji| > 1 && emoji[1] == SELECTOR && rows[n].group == SYMBOLS {
        styles := styles + {Encode(bare)};
      }
    }
    ok := true;
    KeysOfStep(rows, n, byKey);
    StartsOfStep(rows, n, bmpStarts);
    StylesOfStep(rows, n, textStyle);
  }

  lemma EmptyKey(rows: seq<Row>, byKey: map<Text, string>)
    requires KeysOf(rows, |rows|, byKey)
    ensures [] in byKey <==> exists row <- rows :: RowKey(row) == []
  {
    if [] in byKey {
      assert NamedByLast(rows, |rows|, [], byKey[[]]);
    }
  }

  /** Python fails on a row that is nothing but selectors, as it has no first unit. */
  method PicturesJs(rows: seq<Row>) returns (r: Outcome)
    ensures r.IndexError? <==> exists row <- rows :: RowKey(row) == []
    ensures r.Written? ==> TablesOf(rows, r.tables) && CharClass.Canonical(r.tables.mayHold)
  {
    var byKey: map<Text, string> := map[];
    var bmpStarts: set<Unit> := {};
    var textStyle: set<Text> := {};
    for n := 0 to |rows|
      invariant KeysOf(rows, n, byKey)
      invariant StartsOf(rows, n, bmpStarts)
      invariant StylesOf(rows, n, textStyle)
    {
      var ok;
      ok, byKey, bmpStarts, textStyle := AddRow(rows, n, byKey, bmpStarts, textStyle);
      if !ok {
        assert RowKey(rows[n]) == [];
        return IndexError;
      }
    }
    EmptyKey(rows, byKey);
    if [] in byKey {
      return IndexError;
    }
    var mayHold := MayHoldClass(byKey);
    return Written(Tables(byKey, bmpStarts, textStyle, mayHold));
  }

  // ----- the quick look is sound -----

  lemma {:induction false} KeyIsSubsequence(emoji: Text)
    ensures forall u <- Key(emoji) :: u in emoji
  {
    if emoji == [] {
    } else {
      KeyIsSubsequence(emoji[1..]);
    }
  }

  lemma {:induction false} UntonedIsSubsequence(s: Text)
    ensures forall u <- WithoutTones(s) :: u in s
  {
    if s == [] {
    } else {
      UntonedIsSubsequence(s[if ToneFirst(s) then 2 else 1..]);
    }
  }

  /** The key an emoji is found by has only units of the text. */
  lemma LookupKey(t: Tables, emoji: Text) returns (k: Text)
    requires Lookup(t, emoji).Some?
    ensures k in t.byKey && t.byKey[k] == Lookup(t, emoji).value
    ensures k == Key(emoji) || k == Untoned(emoji)
    ensures forall u <- k :: u in emoji
  {
    k := if Key(emoji) in t.byKey then Key(emoji) else Untoned(emoji);
    KeyIsSubsequence(emoji);
    UntonedIsSubsequence(Key(emoji));
  }

  /** A cut holds the mark of the key it was found by. */
  lemma CutHoldsMark(t: Tables, text: Text, c: Cut)
    requires MarksOf(t.byKey, t.mayHold) && CutOf(t, text, c)
    ensures MayHold(t, text)
  {
    var emoji := text[c.start..c.end];
    var k := LookupKey(t, emoji);
    var i := UnitIndex(emoji, Mark(k));
    assert InClass(t.mayHold, text[c.start + i]);
  }

  lemma UnitIndex(s: Text, u: Unit) returns (i: nat)
    requires u in s
    ensures i < |s| && s[i] == u
  {
    i :| i < |s| && s[i] == u;
  }

  /** A text none of whose units is in the generated class has no cuts: skipping its scan
      changes nothing. */
  lemma QuickLookSound(rows: seq<Row>, t: Tables, text: Text, styled: bool)
    requires TablesOf(rows, t)
    ensures Cuts(t, text, styled) == Scan(t, text, styled, false, 0)
  {
    var cuts := Scan(t, text, styled, false, 0);
    ScanCuts(t, text, styled, false, 0);
    if cuts != [] {
      CutHoldsMark(t, text, cuts[0]);
    }
  }

  lemma GeneratedStartsWhole(rows: seq<Row>, t: Tables)
    requires TablesOf(rows, t)
    ensures WholeStarts(t)
  {
  }

  /** What a generated table makes of any code points is what the reference lexer does. */
  lemma GeneratedScannerIsLexer(rows: seq<Row>, t: Tables, ps: Points, styled: bool)
    requires TablesOf(rows, t)
    ensures forall c <- PointCuts(t, ps, styled, false, 0) :: c.start < c.end <= |ps|
    ensures Cuts(t, Encode(ps), styled) == ToUnits(ps, PointCuts(t, ps, styled, false, 0))
  {
    GeneratedStartsWhole(rows, t);
    QuickLookSound(rows, t, Encode(ps), styled);
    ScannerIsLexer(t, ps, styled);
  }

  // ----- every row's emoji is found -----

  /** The shapes the scanner takes whole: a start it tries, then a tail or a second letter. */
  predicate WellShaped(emoji: Points) {
    && emoji != []
    && (0x1F000 <= emoji[0] <= 0x1FAFF
        || 0xA9 <= emoji[0] <= 0xFFFF
        || (0x23 <= emoji[0] < 0xA9 && |emoji| > 1 && (emoji[1] == SELECTOR || emoji[1] == KEYCAP)))
    && if IsRegional(emoji[0]) then |emoji| == 1 || (|emoji| == 2 && IsRegional(emoji[1]))
       else IsTail(emoji[1..])
  }

  predicate DistinctKeys(rows: seq<Row>) {
    forall i, j :: 0 <= i < j < |rows| ==> RowKey(rows[i]) != RowKey(rows[j])
  }

  lemma RowPicture(rows: seq<Row>, t: Tables, i: nat)
    requires TablesOf(rows, t) && DistinctKeys(rows) && i < |rows|
    ensures RowKey(rows[i]) in t.byKey && t.byKey[RowKey(rows[i])] == rows[i].picture
  {
    var k := RowKey(rows[i]);
    assert NamedByLast(rows, |rows|, k, t.byKey[k]);
    var j :| IsLastNamed(rows, |rows|, k, t.byKey[k], j);
    assert !(i < j) && !(j < i);
  }

  /** Text style never holds back an emoji spelled as in its row. */
  lemma RowNotTextStyle(rows: seq<Row>, t: Tables, i: nat)
    requires TablesOf(rows, t) && DistinctKeys(rows) && i < |rows|
    requires RowKey(rows[i]) in t.textStyle
    ensures WithoutSelectors(rows[i].emoji) != rows[i].emoji
  {
    var j :| 0 <= j < |rows| && TextStyled(rows[j]) && RowKey(rows[j]) == RowKey(rows[i]);
    assert !(i < j) && !(j < i);
  }

  lemma ShapeIsEmoji(t: Tables, ps: Points)
    requires ps != [] && (ps[0] <= 0xFFFF ==> ps[0] in t.bmpStarts)
    ensures WellShaped(ps) <==> ps[0] >= 0x23 && IsEmoji(t, ps)
  {
  }

  lemma LongestIsAll(t: Tables, ps: Points)
    requires ps != []
    ensures Longest(t, ps, 0, |ps|) == |ps| <==> IsEmoji(t, ps)
  {
    assert ps[0..|ps|] == ps;
  }

  /** The lexer takes a row's emoji whole exactly when it is well shaped. */
  lemma ShapeIsLongest(rows: seq<Row>, t: Tables, i: nat)
    requires TablesOf(rows, t) && i < |rows| && rows[i].emoji != []
    ensures var ps := rows[i].emoji;
            WellShaped(ps) <==> ps[0] >= 0x23 && Longest(t, ps, 0, |ps|) == |ps|
  {
    var ps := rows[i].emoji;
    assert ps[0] <= 0xFFFF ==> ps[0] in t.bmpStarts;
    ShapeIsEmoji(t, ps);
    LongestIsAll(t, ps);
  }

  lemma WellShapedDrawn(rows: seq<Row>, t: Tables, i: nat)
    requires TablesOf(rows, t) && DistinctKeys(rows) && i < |rows| && WellShaped(rows[i].emoji)
    ensures var ps := rows[i].emoji;
            PointCuts(t, ps, false, false, 0) == [Cut(0, |ps|, rows[i].picture)]
  {
    var ps := rows[i].emoji;
    ShapeIsLongest(rows, t, i);
    RowHasPicture(rows, t, i);
    assert PointCuts(t, ps, false, false, |ps|) == [];
  }

  lemma RowHasPicture(rows: seq<Row>, t: Tables, i: nat)
    requires TablesOf(rows, t) && DistinctKeys(rows) && i < |rows| && rows[i].emoji != []
    ensures PointPicture(t, rows[i].emoji, 0, |rows[i].emoji|) == Some(rows[i].picture)
  {
    var ps := rows[i].emoji;
    RowPicture(rows, t, i);
    if RowKey(rows[i]) in t.textStyle {
      RowNotTextStyle(rows, t, i);
    }
    assert ps[0..|ps|] == ps;
  }

  /** A cut over a whole text of code points is an emoji of all of them. */
  lemma WholeCutShaped(t: Tables, ps: Points, name: string)
    requires ps != [] && CutOf(t, Encode(ps), Cut(0, |Encode(ps)|, name))
    ensures ps[0] >= 0x23 && Longest(t, ps, 0, |ps|) == |ps|
  {
    EndRefines(t, ps, 0);
    OffsetSlice(ps, Longest(t, ps, 0, |ps|), |ps|);
    OffsetWhole(ps);
    OffsetStep(ps, 0);
  }

  lemma DrawnIsWellShaped(rows: seq<Row>, t: Tables, i: nat)
    requires TablesOf(rows, t) && i < |rows|
    requires var text := Encode(rows[i].emoji);
             Cuts(t, text, false) == [Cut(0, |text|, rows[i].picture)]
    ensures WellShaped(rows[i].emoji)
  {
    var ps := rows[i].emoji;
    CutsAreEmoji(t, Encode(ps), false);
    assert CutOf(t, Encode(ps), Cut(0, |Encode(ps)|, rows[i].picture));
    assert ps != [];
    ShapeIsLongest(rows, t, i);
    WholeCutShaped(t, ps, rows[i].picture);
  }

  /** A row's emoji, scanned alone as the row spells it, is one cut over all of it with the
      row's picture, exactly when it is well shaped. */
  lemma RowDrawnAlone(rows: seq<Row>, t: Tables, i: nat)
    requires TablesOf(rows, t) && DistinctKeys(rows) && i < |rows|
    ensures var text := Encode(rows[i].emoji);
            Cuts(t, text, false) == [Cut(0, |text|, rows[i].picture)] <==> WellShaped(rows[i].emoji)
  {
    var ps := rows[i].emoji;
    var text := Encode(ps);
    RowPicture(rows, t, i);
    EncodeNotEmpty(ps);
    if WellShaped(ps) {
      WellShapedDrawn(rows, t, i);
      GeneratedScannerIsLexer(rows, t, ps, false);
      OffsetWhole(ps);
    } else if Cuts(t, text, false) == [Cut(0, |text|, rows[i].picture)] {
      DrawnIsWellShaped(rows, t, i);
      assert false;
    }
  }
}
